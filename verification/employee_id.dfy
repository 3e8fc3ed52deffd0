/**
 * Extraction of `Employee_ID_Number` from `Assigned_Employee`: the first
 * element of `re.findall(r'\d+', x)`, or None when that list is empty.
 */
module EmployeeId {
  import opened Wrappers
  import opened Strings

  predicate NoDigit(s: string) {
    forall i :: 0 <= i < |s| ==> !IsDigit(s[i])
  }

  predicate AllDigits(s: string) {
    forall i :: 0 <= i < |s| ==> IsDigit(s[i])
  }

  /** Length of the run of digits at the start of `s`. */
  function DigitPrefixLength(s: string): (n: nat)
    ensures n <= |s|
    ensures AllDigits(s[..n])
    ensures n == |s| || !IsDigit(s[n])
  {
    if |s| > 0 && IsDigit(s[0]) then 1 + DigitPrefixLength(s[1..]) else 0
  }

  /** Every maximal run of digits of `s`, left to right: what `re.findall(r'\d+', s)` returns. */
  function DigitRuns(s: string): (runs: seq<string>)
    ensures forall k :: 0 <= k < |runs| ==> |runs[k]| > 0 && AllDigits(runs[k])
    decreases |s|
  {
    if |s| == 0 then []
    else if IsDigit(s[0]) then
      var n := DigitPrefixLength(s);
      [s[..n]] + DigitRuns(s[n..])
    else DigitRuns(s[1..])
  }

  /** The derived `Employee_ID_Number` column. */
  function EmployeeIdNumber(employee: string): Option<string> {
    var runs := DigitRuns(employee);
    if |runs| > 0 then Some(runs[0]) else None
  }

  lemma {:induction false} DigitPrefixOfRun(d: string, q: string)
    requires AllDigits(d)
    requires |q| == 0 || !IsDigit(q[0])
    ensures DigitPrefixLength(d + q) == |d|
    decreases |d|
  {
    if |d| > 0 {
      assert (d + q)[1..] == d[1..] + q;
      DigitPrefixOfRun(d[1..], q);
    } else {
      assert d + q == q;
    }
  }

  /** A string without digits has no digit run, and so no identifier. */
  lemma {:induction false} NoDigitNoRuns(s: string)
    requires NoDigit(s)
    ensures DigitRuns(s) == []
    ensures EmployeeIdNumber(s) == None
    decreases |s|
  {
    if |s| > 0 {
      NoDigitNoRuns(s[1..]);
    }
  }

  /**
   * Whatever follows the first maximal run of digits, that run is the
   * identifier: later runs are ignored.
   */
  lemma {:induction false} FirstRunIsId(p: string, d: string, q: string)
    requires NoDigit(p)
    requires |d| > 0 && AllDigits(d)
    requires |q| == 0 || !IsDigit(q[0])
    ensures EmployeeIdNumber(p + d + q) == Some(d)
    decreases |p|
  {
    if |p| == 0 {
      assert p + d + q == d + q;
      DigitPrefixOfRun(d, q);
      assert (d + q)[..|d|] == d;
    } else {
      assert (p + d + q)[1..] == p[1..] + d + q;
      FirstRunIsId(p[1..], d, q);
    }
  }

  /** The position of the first digit of a string that has one. */
  lemma {:induction false} FirstDigit(s: string) returns (i: nat)
    requires !NoDigit(s)
    ensures i < |s| && IsDigit(s[i]) && NoDigit(s[..i])
    decreases |s|
  {
    if IsDigit(s[0]) {
      i := 0;
    } else {
      assert !NoDigit(s[1..]) by {
        var k :| 0 <= k < |s| && IsDigit(s[k]);
        assert s[1..][k - 1] == s[k];
      }
      var j := FirstDigit(s[1..]);
      i := j + 1;
      assert s[..i] == [s[0]] + s[1..][..j];
    }
  }

  /**
   * Converse of FirstRunIsId and NoDigitNoRuns: the identifier is missing
   * exactly when there is no digit, and otherwise it is a maximal run of
   * digits preceded only by non-digits.
   */
  lemma {:induction false} IdIsFirstRun(s: string)
    ensures EmployeeIdNumber(s).None? <==> NoDigit(s)
    ensures EmployeeIdNumber(s).Some? ==>
      var d := EmployeeIdNumber(s).value;
      |d| > 0 && AllDigits(d) &&
      exists i :: 0 <= i <= |s| - |d| && NoDigit(s[..i]) && s[i..i + |d|] == d &&
        (i + |d| == |s| || !IsDigit(s[i + |d|]))
  {
    if NoDigit(s) {
      NoDigitNoRuns(s);
    } else {
      var i := FirstDigit(s);
      var n := DigitPrefixLength(s[i..]);
      var d := s[i..i + n];
      assert s[i..][..n] == d;
      assert s == s[..i] + d + s[i + n..];
      FirstRunIsId(s[..i], d, s[i + n..]);
      assert i + n == |s| || !IsDigit(s[i + n]) by {
        if i + n < |s| {
          assert s[i..][n] == s[i + n];
        }
      }
    }
  }

  /**
   * The identifier found by scanning left to right: skip non-digits, then
   * take digits for as long as they last.
   */
  method ScanEmployeeId(s: string) returns (r: Option<string>)
    ensures r == EmployeeIdNumber(s)
  {
    var i := 0;
    while i < |s| && !IsDigit(s[i])
      invariant 0 <= i <= |s|
      invariant NoDigit(s[..i])
    {
      i := i + 1;
    }
    if i == |s| {
      assert s[..i] == s;
      NoDigitNoRuns(s);
      return None;
    }
    var j := i + 1;
    while j < |s| && IsDigit(s[j])
      invariant i < j <= |s|
      invariant AllDigits(s[i..j])
    {
      assert s[i..j + 1] == s[i..j] + [s[j]];
      j := j + 1;
    }
    assert s == s[..i] + s[i..j] + s[j..];
    FirstRunIsId(s[..i], s[i..j], s[j..]);
    r := Some(s[i..j]);
  }
}
