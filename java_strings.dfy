/**
 * The two java.lang.String operations the proof validation pipeline relies on:
 * `isBlank()` and `split(sep)` with a one-character, non-metacharacter separator
 * and the default limit 0.
 */
module JavaStrings {

  /** Character.isWhitespace: the Unicode space, line and paragraph separators other than
      the three no-break spaces, plus U+0009..U+000D and U+001C..U+001F. */
  predicate IsWhitespace(c: char) {
    var n := c as int;
    (0x09 <= n <= 0x0D) || (0x1C <= n <= 0x20) || n == 0x1680 ||
    (0x2000 <= n <= 0x2006) || (0x2008 <= n <= 0x200A) ||
    n == 0x2028 || n == 0x2029 || n == 0x205F || n == 0x3000
  }

  /** String.isBlank: empty, or whitespace only. */
  predicate IsBlank(s: string) {
    forall i :: 0 <= i < |s| ==> IsWhitespace(s[i])
  }

  /** True when s is non-empty and made of `sep` alone. */
  predicate OnlySeparators(s: string, sep: char) {
    |s| > 0 && forall i :: 0 <= i < |s| ==> s[i] == sep
  }

  /** The position of the first `sep` in s, or |s| when there is none. */
  function FirstIndex(s: string, sep: char): (k: nat)
    ensures k <= |s|
    ensures k < |s| ==> s[k] == sep
    ensures forall i :: 0 <= i < k ==> s[i] != sep
    decreases |s|
  {
    if |s| == 0 || s[0] == sep then 0 else 1 + FirstIndex(s[1..], sep)
  }

  /** The text before the first `sep` (all of s when there is none): the reference meaning
      of `s.split(sep)[0]`. */
  function PrefixBefore(s: string, sep: char): (p: string)
    ensures p <= s && sep !in p
    ensures |p| < |s| ==> s[|p|] == sep
  {
    s[..FirstIndex(s, sep)]
  }

  /** The maximal runs of s between occurrences of `sep`, empty runs included:
      the regex matcher's pieces before trailing empty strings are removed. */
  function Pieces(s: string, sep: char): (r: seq<string>)
    ensures |r| >= 1
    decreases |s|
  {
    if |s| == 0 then [""]
    else
      var rest := Pieces(s[1..], sep);
      if s[0] == sep then [""] + rest else [[s[0]] + rest[0]] + rest[1..]
  }

  /** Joins pieces with `sep` between consecutive ones. */
  function Join(ts: seq<string>, sep: char): string
    requires |ts| >= 1
    decreases |ts|
  {
    if |ts| == 1 then ts[0] else ts[0] + [sep] + Join(ts[1..], sep)
  }

  /** Removes the trailing empty strings, as split with limit 0 does. */
  function DropTrailingEmpty(ts: seq<string>): (r: seq<string>)
    ensures r <= ts
    ensures r == [] || r[|r| - 1] != ""
    ensures forall i :: |r| <= i < |ts| ==> ts[i] == ""
    decreases |ts|
  {
    if ts == [] then []
    else if ts[|ts| - 1] == "" then DropTrailingEmpty(ts[..|ts| - 1])
    else ts
  }

  /** String.split(String.valueOf(sep)): an input without a match is returned whole
      (so "" gives [""]); otherwise the pieces, with trailing empty strings removed. */
  function Split(s: string, sep: char): seq<string> {
    if sep !in s then [s] else DropTrailingEmpty(Pieces(s, sep))
  }

  /** Splitting and joining are inverse: no character is lost or invented. */
  lemma {:induction false} JoinPieces(s: string, sep: char)
    ensures Join(Pieces(s, sep), sep) == s
    decreases |s|
  {
    if |s| > 0 {
      var rest := Pieces(s[1..], sep);
      JoinPieces(s[1..], sep);
      if s[0] == sep {
        assert Pieces(s, sep)[1..] == rest;
      } else {
        var ps := Pieces(s, sep);
        assert ps[1..] == rest[1..];
        if |rest| > 1 {
          assert Join(rest, sep) == rest[0] + [sep] + Join(rest[1..], sep);
        }
      }
    }
  }

  /** The first piece is the text before the first separator. */
  lemma {:induction false} FirstPiece(s: string, sep: char)
    ensures Pieces(s, sep)[0] == PrefixBefore(s, sep)
    decreases |s|
  {
    if |s| > 0 && s[0] != sep {
      FirstPiece(s[1..], sep);
      assert PrefixBefore(s, sep) == [s[0]] + PrefixBefore(s[1..], sep);
    }
  }

  /** Every piece is empty exactly when s holds nothing but separators. */
  lemma {:induction false} PiecesAllEmpty(s: string, sep: char)
    ensures (forall i :: 0 <= i < |Pieces(s, sep)| ==> Pieces(s, sep)[i] == "")
        <==> (forall i :: 0 <= i < |s| ==> s[i] == sep)
    decreases |s|
  {
    if |s| > 0 {
      PiecesAllEmpty(s[1..], sep);
      var rest := Pieces(s[1..], sep);
      if s[0] == sep {
        var ps := Pieces(s, sep);
        assert ps == [""] + rest;
        assert (forall i :: 0 <= i < |ps| ==> ps[i] == "")
            <==> (forall i :: 0 <= i < |rest| ==> rest[i] == "") by {
          if forall i :: 0 <= i < |rest| ==> rest[i] == "" {
            forall i | 0 <= i < |ps| ensures ps[i] == "" {
              if i > 0 { assert ps[i] == rest[i - 1]; }
            }
          }
          if forall i :: 0 <= i < |ps| ==> ps[i] == "" {
            forall i | 0 <= i < |rest| ensures rest[i] == "" {
              assert rest[i] == ps[i + 1];
            }
          }
        }
        assert (forall i :: 0 <= i < |s| ==> s[i] == sep)
            <==> (forall i :: 0 <= i < |s[1..]| ==> s[1..][i] == sep) by {
          forall i | 0 < i < |s| ensures s[i] == s[1..][i - 1] { }
        }
      } else {
        assert Pieces(s, sep)[0] != "";
      }
    }
  }

  /** `split` yields an empty array exactly for a non-empty run of separators, so that
      indexing its first element throws only then. */
  lemma SplitEmptyIff(s: string, sep: char)
    ensures Split(s, sep) == [] <==> OnlySeparators(s, sep)
  {
    if sep in s {
      PiecesAllEmpty(s, sep);
      var ps := Pieces(s, sep);
      var r := DropTrailingEmpty(ps);
      assert r != [] ==> r[|r| - 1] == ps[|r| - 1];
    } else if |s| > 0 {
      assert s[0] != sep;
    }
  }

  /** When `split` yields something, its first element is the text before the first separator. */
  lemma SplitHead(s: string, sep: char)
    requires !OnlySeparators(s, sep)
    ensures |Split(s, sep)| > 0 && Split(s, sep)[0] == PrefixBefore(s, sep)
  {
    SplitEmptyIff(s, sep);
    if sep in s {
      FirstPiece(s, sep);
      assert Split(s, sep)[0] == Pieces(s, sep)[0];
    } else {
      assert FirstIndex(s, sep) == |s|;
    }
  }

  /** The text before the first separator of `u + [sep] + k` is u when u has no separator. */
  lemma {:induction false} PrefixBeforeAppend(u: string, sep: char, k: string)
    requires sep !in u
    ensures PrefixBefore(u + [sep] + k, sep) == u
    decreases |u|
  {
    if |u| > 0 {
      PrefixBeforeAppend(u[1..], sep, k);
      assert (u + [sep] + k)[1..] == u[1..] + [sep] + k;
    }
  }
}
