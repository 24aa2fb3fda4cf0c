/**
  Text helpers of the sign-up form's one-time-passcode handling: the `\d`
  character class, the OTP slots and their invariant, and the JavaScript
  string/array operations the handlers use on them (`replace(/\D/g, "")`,
  `slice(0, n)`, `split("")` and `join("")`).
 */
module OtpText {

  /** `\d` of a JavaScript regular expression without the `u` flag: an ASCII decimal digit. */
  predicate IsDigit(c: char) {
    '0' <= c <= '9'
  }

  /** `/^\d*$/.test(s)`: every character is a digit (the empty string passes). */
  predicate AllDigits(s: string) {
    forall i :: 0 <= i < |s| ==> IsDigit(s[i])
  }

  /** The number of OTP input boxes the form renders. */
  const SlotCount: nat := 6

  /** A slot holds nothing or exactly one decimal digit. */
  predicate ValidSlot(slot: string) {
    slot == "" || (|slot| == 1 && IsDigit(slot[0]))
  }

  /** The slot invariant: exactly six slots, each empty or one digit. */
  predicate SlotsOk(otp: seq<string>) {
    |otp| == SlotCount && forall i :: 0 <= i < |otp| ==> ValidSlot(otp[i])
  }

  /** `otp.every((digit) => digit === "")`. */
  predicate AllEmpty(otp: seq<string>) {
    forall i :: 0 <= i < |otp| ==> otp[i] == ""
  }

  /** No slot is left blank. */
  predicate AllFilled(otp: seq<string>) {
    forall i :: 0 <= i < |otp| ==> otp[i] != ""
  }

  /** `s.slice(0, n)` for a non-negative `n`: the longest prefix of at most `n` elements. */
  function Take<T>(s: seq<T>, n: nat): (r: seq<T>)
    ensures |r| == if |s| < n then |s| else n
    ensures r <= s
  {
    if |s| <= n then s else s[..n]
  }

  /** `s.replace(/\D/g, "")`: the digits of `s`, in order. */
  function KeepDigits(s: string): (r: string)
    ensures AllDigits(r)
    ensures |r| <= |s|
  {
    if s == [] then []
    else if IsDigit(s[0]) then [s[0]] + KeepDigits(s[1..])
    else KeepDigits(s[1..])
  }

  /** `s.split("")`: one single-character string per character. */
  function Split(s: string): (r: seq<string>)
    ensures |r| == |s|
    ensures forall i :: 0 <= i < |s| ==> r[i] == [s[i]]
  {
    if s == [] then [] else [[s[0]]] + Split(s[1..])
  }

  /** `xs.join("")`: the concatenation of the elements. */
  function Join(xs: seq<string>): string {
    if xs == [] then "" else xs[0] + Join(xs[1..])
  }

  /** Stripping non-digits distributes over concatenation. */
  lemma {:induction false} KeepDigitsConcat(a: string, b: string)
    ensures KeepDigits(a + b) == KeepDigits(a) + KeepDigits(b)
    decreases |a|
  {
    if a == [] {
      assert a + b == b;
    } else {
      assert (a + b)[0] == a[0];
      assert (a + b)[1..] == a[1..] + b;
      KeepDigitsConcat(a[1..], b);
    }
  }

  /** Stripping non-digits leaves a digit string alone. */
  lemma {:induction false} KeepDigitsOfDigits(s: string)
    requires AllDigits(s)
    ensures KeepDigits(s) == s
    decreases |s|
  {
    if s != [] {
      KeepDigitsOfDigits(s[1..]);
      assert [s[0]] + s[1..] == s;
    }
  }

  /** A single character is kept exactly when it is a digit. */
  lemma KeepDigitsOfChar(c: char)
    ensures KeepDigits([c]) == if IsDigit(c) then [c] else []
  {
  }

  /** Stripping non-digits from `"123-456"` drops the dash. */
  lemma KeepDigitsSample()
    ensures KeepDigits("123-456") == "123456"
  {
    var a, b, c := "123", "-", "456";
    assert a + (b + c) == "123-456";
    KeepDigitsConcat(b, c);
    KeepDigitsConcat(a, b + c);
    KeepDigitsOfChar('-');
    assert b == ['-'];
    KeepDigitsOfDigits(a);
    KeepDigitsOfDigits(c);
    assert a + c == "123456";
  }

  /** Every slot is blank exactly when the joined code is empty. */
  lemma {:induction false} AllEmptyIffJoinEmpty(xs: seq<string>)
    ensures AllEmpty(xs) <==> Join(xs) == ""
    decreases |xs|
  {
    if xs != [] {
      AllEmptyIffJoinEmpty(xs[1..]);
      assert |Join(xs)| == |xs[0]| + |Join(xs[1..])|;
      if AllEmpty(xs) {
        forall i | 0 <= i < |xs[1..]|
          ensures xs[1..][i] == ""
        {
          assert xs[1..][i] == xs[i + 1];
        }
      }
      if xs[0] == "" && AllEmpty(xs[1..]) {
        forall i | 0 <= i < |xs|
          ensures xs[i] == ""
        {
          if i > 0 { assert xs[i] == xs[1..][i - 1]; }
        }
      }
    }
  }

  /** Joining the characters of a string gives the string back. */
  lemma {:induction false} JoinSplit(s: string)
    ensures Join(Split(s)) == s
    decreases |s|
  {
    if s != [] {
      assert Split(s)[1..] == Split(s[1..]);
      JoinSplit(s[1..]);
      assert [s[0]] + s[1..] == s;
    }
  }

  /** Splitting a join of single characters gives the pieces back. */
  lemma {:induction false} SplitJoin(xs: seq<string>)
    requires forall i :: 0 <= i < |xs| ==> |xs[i]| == 1
    ensures Split(Join(xs)) == xs
    decreases |xs|
  {
    if xs != [] {
      var rest := Join(xs[1..]);
      assert Join(xs) == xs[0] + rest;
      assert (xs[0] + rest)[1..] == rest;
      SplitJoin(xs[1..]);
      assert [xs[0][0]] == xs[0];
      assert Split(Join(xs)) == [[Join(xs)[0]]] + Split(rest);
    }
  }

  /**
    For valid slots the joined code is as long as the slot list exactly when
    no slot is blank, and never longer.
   */
  lemma {:induction false} JoinLength(xs: seq<string>)
    requires forall i :: 0 <= i < |xs| ==> ValidSlot(xs[i])
    ensures |Join(xs)| <= |xs|
    ensures |Join(xs)| == |xs| <==> AllFilled(xs)
    decreases |xs|
  {
    if xs != [] {
      JoinLength(xs[1..]);
      if AllFilled(xs[1..]) && xs[0] != "" {
        forall i | 0 <= i < |xs|
          ensures xs[i] != ""
        {
          if i > 0 { assert xs[i] == xs[1..][i - 1]; }
        }
      }
      if AllFilled(xs) {
        forall i | 0 <= i < |xs[1..]|
          ensures xs[1..][i] != ""
        {
          assert xs[1..][i] == xs[i + 1];
        }
      }
    }
  }

  /** Joining valid slots gives a digit string. */
  lemma {:induction false} JoinDigits(xs: seq<string>)
    requires forall i :: 0 <= i < |xs| ==> ValidSlot(xs[i])
    ensures AllDigits(Join(xs))
    decreases |xs|
  {
    if xs != [] {
      JoinDigits(xs[1..]);
      var rest := Join(xs[1..]);
      forall i | 0 <= i < |xs[0] + rest|
        ensures IsDigit((xs[0] + rest)[i])
      {
        if i >= |xs[0]| {
          assert (xs[0] + rest)[i] == rest[i - |xs[0]|];
        }
      }
    }
  }
}
