/** Text helpers shared by the models: options, results, and the string primitives of Go's
    `strings` package that the operator relies on. */
module Text {

  datatype Option<+T> = None | Some(value: T)

  datatype Result<+T, +E> = Ok(value: T) | Err(error: E)

  /** `unicode.IsSpace`: the characters that `strings.TrimSpace` removes. */
  predicate IsSpace(c: char) {
    || '\t' <= c <= '\r'
    || c == ' ' || c == '\U{0085}' || c == '\U{00A0}' || c == '\U{1680}'
    || '\U{2000}' <= c <= '\U{200A}'
    || c == '\U{2028}' || c == '\U{2029}' || c == '\U{202F}' || c == '\U{205F}' || c == '\U{3000}'
  }

  /** The class `\s` of Go's `regexp` package, which is smaller than `IsSpace`. */
  predicate IsRegexSpace(c: char) {
    c == '\t' || c == '\n' || c == '\U{000C}' || c == '\r' || c == ' '
  }

  predicate IsComma(c: char) {
    c == ','
  }

  predicate HasPrefix(s: string, prefix: string) {
    prefix <= s
  }

  /** Drops the longest suffix whose characters all satisfy `drop`. */
  function TrimRight(s: string, drop: char -> bool): (r: string)
    ensures r <= s
    ensures r == "" || !drop(r[|r| - 1])
    ensures s != "" && drop(s[|s| - 1]) ==> |r| < |s|
  {
    if s == "" || !drop(s[|s| - 1]) then s
    else
      var r := TrimRight(s[..|s| - 1], drop);
      assert r <= s[..|s| - 1] <= s;
      r
  }

  /** Drops the longest prefix whose characters all satisfy `drop`. */
  function TrimLeft(s: string, drop: char -> bool): (r: string)
    ensures |r| <= |s| && r == s[|s| - |r|..]
    ensures r == "" || !drop(r[0])
  {
    if s == "" || !drop(s[0]) then s else TrimLeft(s[1..], drop)
  }

  /** `strings.TrimSpace`. */
  function TrimSpace(s: string): (r: string)
    ensures |r| <= |s|
    ensures r == "" || (!IsSpace(r[0]) && !IsSpace(r[|r| - 1]))
    ensures s == "" || (!IsSpace(s[0]) && !IsSpace(s[|s| - 1])) ==> r == s
  {
    TrimRight(TrimLeft(s, IsSpace), IsSpace)
  }

  /** The first position of `c` in `s`, or -1. */
  function IndexOf(s: string, c: char): (i: int)
    ensures -1 <= i < |s|
    ensures i >= 0 ==> s[i] == c && c !in s[..i]
    ensures i == -1 <==> c !in s
  {
    if s == "" then -1
    else if s[0] == c then 0
    else
      var j := IndexOf(s[1..], c);
      assert s == [s[0]] + s[1..];
      if j == -1 then -1
      else
        assert s[..j + 1] == [s[0]] + s[1..][..j];
        j + 1
  }

  /** The length of the longest prefix whose characters all satisfy `p`. */
  function RunLength(s: string, p: char -> bool): (n: nat)
    ensures n <= |s|
    ensures forall i :: 0 <= i < n ==> p(s[i])
    ensures n < |s| ==> !p(s[n])
  {
    if s == "" || !p(s[0]) then 0 else 1 + RunLength(s[1..], p)
  }

  /** A run that stops inside `s` stops at the same place in any extension of `s`. */
  lemma {:induction false} RunLengthExtend(s: string, t: string, p: char -> bool)
    requires RunLength(s, p) < |s| || t == "" || !p(t[0])
    ensures RunLength(s + t, p) == RunLength(s, p)
  {
    if s != "" && p(s[0]) {
      assert (s + t)[1..] == s[1..] + t;
      RunLengthExtend(s[1..], t, p);
    } else if s == "" {
      assert s + t == t;
    }
  }
}
