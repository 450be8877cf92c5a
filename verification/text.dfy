/**
  String operations the reconciliation engine borrows from Python: case mapping
  (`str.lower` / `str.upper`), substring search (`in`) and `str.zfill`.
  Case mapping covers the ASCII and Latin-1 letters, which is where the
  Portuguese headers and sector names of the spreadsheets live.
 */
module Text {

  predicate IsUpperLetter(c: char) {
    ('A' <= c <= 'Z') || ('\U{00C0}' <= c <= '\U{00DE}' && c != '\U{00D7}')
  }

  predicate IsLowerLetter(c: char) {
    ('a' <= c <= 'z') || ('\U{00E0}' <= c <= '\U{00FE}' && c != '\U{00F7}')
  }

  function LowerChar(c: char): char {
    if IsUpperLetter(c) then (c as int + 32) as char else c
  }

  function UpperChar(c: char): char {
    if IsLowerLetter(c) then (c as int - 32) as char else c
  }

  /** Python's `s.lower()`. */
  function Lower(s: string): (r: string)
    ensures |r| == |s|
    ensures forall i :: 0 <= i < |s| ==> r[i] == LowerChar(s[i])
  {
    seq(|s|, i requires 0 <= i < |s| => LowerChar(s[i]))
  }

  /** Python's `s.upper()`. */
  function Upper(s: string): (r: string)
    ensures |r| == |s|
    ensures forall i :: 0 <= i < |s| ==> r[i] == UpperChar(s[i])
  {
    seq(|s|, i requires 0 <= i < |s| => UpperChar(s[i]))
  }

  lemma CaseFoldAgreeChar(a: char, b: char)
    ensures UpperChar(a) == UpperChar(b) <==> LowerChar(a) == LowerChar(b)
  {
  }

  /** Comparing upper-cased strings and comparing lower-cased strings are the same test:
      "case-insensitively equal" has one meaning in the model. */
  lemma CaseFoldAgree(s: string, t: string)
    ensures Upper(s) == Upper(t) <==> Lower(s) == Lower(t)
  {
    if Upper(s) == Upper(t) {
      forall i | 0 <= i < |s| ensures Lower(s)[i] == Lower(t)[i] {
        assert Upper(s)[i] == Upper(t)[i];
        CaseFoldAgreeChar(s[i], t[i]);
      }
    }
    if Lower(s) == Lower(t) {
      forall i | 0 <= i < |s| ensures Upper(s)[i] == Upper(t)[i] {
        assert Lower(s)[i] == Lower(t)[i];
        CaseFoldAgreeChar(s[i], t[i]);
      }
    }
  }

  predicate StartsWith(s: string, p: string) {
    |p| <= |s| && s[..|p|] == p
  }

  /** Python's `p in s`: `p` occurs somewhere in `s` (the empty string occurs everywhere). */
  predicate Contains(s: string, p: string)
    ensures Contains(s, p) ==> |p| <= |s|
    ensures |p| == 0 ==> Contains(s, p)
    decreases |s|
  {
    StartsWith(s, p) || (|s| > 0 && Contains(s[1..], p))
  }

  /** `p` occurs in `s` starting at position `i`. */
  predicate OccursAt(s: string, p: string, i: int) {
    0 <= i && i + |p| <= |s| && s[i..i + |p|] == p
  }

  /** `Contains` agrees with the positional definition of an occurrence. */
  lemma {:induction false} ContainsIffOccurrence(s: string, p: string)
    ensures Contains(s, p) <==> exists i :: OccursAt(s, p, i)
    decreases |s|
  {
    if StartsWith(s, p) {
      assert OccursAt(s, p, 0);
    } else if |s| > 0 {
      ContainsIffOccurrence(s[1..], p);
      if Contains(s[1..], p) {
        var i :| OccursAt(s[1..], p, i);
        assert s[1..][i..i + |p|] == s[i + 1..i + 1 + |p|];
        assert OccursAt(s, p, i + 1);
      }
      if exists i :: OccursAt(s, p, i) {
        var i :| OccursAt(s, p, i);
        if i > 0 {
          assert s[1..][i - 1..i - 1 + |p|] == s[i..i + |p|];
          assert OccursAt(s[1..], p, i - 1);
        }
      }
    }
  }

  function Zeros(n: nat): (r: string)
    ensures |r| == n
    ensures forall i :: 0 <= i < n ==> r[i] == '0'
  {
    seq(n, _ => '0')
  }

  predicate IsSign(c: char) {
    c == '+' || c == '-'
  }

  /** Python's `s.zfill(width)`: left-pad with '0' up to `width`, keeping a leading sign in front. */
  function ZFill(s: string, width: nat): (r: string)
    ensures |r| == if |s| >= width then |s| else width
  {
    if |s| >= width then s
    else if |s| > 0 && IsSign(s[0]) then [s[0]] + Zeros(width - |s|) + s[1..]
    else Zeros(width - |s|) + s
  }

  /** What padding leaves of the input: strings already `width` long are untouched; otherwise
      the sign (if any) stays first, only zeros are inserted, and the rest of `s` ends the result. */
  lemma ZFillShape(s: string, width: nat)
    ensures |s| >= width ==> ZFill(s, width) == s
    ensures |s| < width && (|s| == 0 || !IsSign(s[0])) ==>
      && ZFill(s, width)[width - |s|..] == s
      && forall i :: 0 <= i < width - |s| ==> ZFill(s, width)[i] == '0'
    ensures |s| < width && |s| > 0 && IsSign(s[0]) ==>
      && ZFill(s, width)[0] == s[0]
      && ZFill(s, width)[width - |s| + 1..] == s[1..]
      && forall i :: 1 <= i <= width - |s| ==> ZFill(s, width)[i] == '0'
  {
  }

  /** Padding twice pads once. */
  lemma ZFillIdempotent(s: string, width: nat)
    ensures ZFill(ZFill(s, width), width) == ZFill(s, width)
  {
  }

  /** Receipt codes as the spreadsheets hold them. */
  lemma ZFillExamples()
    ensures ZFill("7", 4) == "0007"
    ensures ZFill("-7", 4) == "-007"
    ensures ZFill("", 4) == "0000"
    ensures ZFill("12345", 4) == "12345"
  {
    assert ZFill("7", 4) == Zeros(3) + "7";
    assert Zeros(3) == "000";
    assert ZFill("-7", 4) == "-" + Zeros(2) + "7";
    assert Zeros(2) == "00";
    assert Zeros(4) == "0000";
  }
}
