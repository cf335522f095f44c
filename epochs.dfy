/**
 * Epoch extraction from the checkpoint file name: the first maximal run of
 * decimal digits (what `re.search(r'\d+', name)` finds), read as a base-10
 * integer (what `int(...)` of that match gives).
 */
module Epochs {
  import opened Outcomes
  import opened Paths

  predicate IsDigit(ch: char) {
    '0' <= ch <= '9'
  }

  predicate AllDigits(s: string) {
    forall i :: 0 <= i < |s| ==> IsDigit(s[i])
  }

  predicate NoDigit(s: string) {
    forall i :: 0 <= i < |s| ==> !IsDigit(s[i])
  }

  function DigitValue(ch: char): (d: nat)
    requires IsDigit(ch)
    ensures d < 10
  {
    ch as int - '0' as int
  }

  function DigitChar(d: nat): (ch: char)
    requires d < 10
    ensures IsDigit(ch) && DigitValue(ch) == d
  {
    ('0' as int + d) as char
  }

  /** The base-10 value of a run of digits, most significant first; leading zeros are allowed. */
  function DecimalValue(ds: string): (v: nat)
    requires AllDigits(ds)
    decreases |ds|
  {
    if ds == [] then 0
    else 10 * DecimalValue(ds[..|ds| - 1]) + DigitValue(ds[|ds| - 1])
  }

  /** The canonical base-10 spelling of n: no leading zeros, "0" for zero. */
  function Decimal(n: nat): (ds: string)
    ensures ds != [] && AllDigits(ds)
    decreases n
  {
    if n < 10 then [DigitChar(n)] else Decimal(n / 10) + [DigitChar(n % 10)]
  }

  /** Reading back the canonical spelling gives the number. */
  lemma {:induction false} DecimalRoundTrip(n: nat)
    ensures DecimalValue(Decimal(n)) == n
    decreases n
  {
    if n >= 10 {
      DecimalRoundTrip(n / 10);
      var ds := Decimal(n);
      assert ds[..|ds| - 1] == Decimal(n / 10);
    }
  }

  /** Index of the first digit at or after `from`, or |s| when there is none. */
  function FirstDigitFrom(s: string, from: nat): (i: nat)
    requires from <= |s|
    ensures from <= i <= |s|
    ensures forall k :: from <= k < i ==> !IsDigit(s[k])
    ensures i < |s| ==> IsDigit(s[i])
    decreases |s| - from
  {
    if from == |s| || IsDigit(s[from]) then from else FirstDigitFrom(s, from + 1)
  }

  /** End of the run of digits that starts at `from`: the first non-digit at or after it, or |s|. */
  function RunEnd(s: string, from: nat): (j: nat)
    requires from <= |s|
    ensures from <= j <= |s|
    ensures forall k :: from <= k < j ==> IsDigit(s[k])
    ensures j < |s| ==> !IsDigit(s[j])
    decreases |s| - from
  {
    if from == |s| || !IsDigit(s[from]) then from else RunEnd(s, from + 1)
  }

  /**
   * The span `[start, end)` of the leftmost maximal run of digits in `s`,
   * or None when `s` holds no digit (a failed `re.search`).
   */
  function DigitRun(s: string): (r: Option<(nat, nat)>)
    ensures r.None? <==> NoDigit(s)
    ensures r.Some? ==> r.value.0 < r.value.1 <= |s|
    ensures r.Some? ==> NoDigit(s[..r.value.0]) && AllDigits(s[r.value.0..r.value.1])
    ensures r.Some? ==> r.value.1 == |s| || !IsDigit(s[r.value.1])
  {
    var i := FirstDigitFrom(s, 0);
    if i == |s| then None
    else
      var j := RunEnd(s, i);
      assert s[i] == s[i..j][0];
      Some((i, j))
  }

  /** The epoch number of a checkpoint file name, or the error a name without digits raises. */
  function Epoch(modelName: string): (r: Result<nat, ParseError>)
    ensures r.Failure? <==> NoDigit(modelName)
    ensures r.Failure? ==> r.error == NoDigitRun(modelName)
  {
    match DigitRun(modelName)
    case None => Failure(NoDigitRun(modelName))
    case Some((i, j)) => Success(DecimalValue(modelName[i..j]))
  }

  /**
   * A name made of a digit-free prefix, a run of digits and a rest that does
   * not continue the run has that run's value as its epoch.
   */
  lemma EpochOfName(prefix: string, ds: string, rest: string)
    requires NoDigit(prefix) && ds != [] && AllDigits(ds)
    requires rest == [] || !IsDigit(rest[0])
    ensures Epoch(prefix + ds + rest) == Success(DecimalValue(ds))
  {
    var s := prefix + ds + rest;
    var p, q := |prefix|, |prefix| + |ds|;
    assert s[p] == ds[0];
    var (i, j) := DigitRun(s).value;
    assert s[i] == s[i..j][0];
    assert forall k :: 0 <= k < i ==> !IsDigit(s[k]) by {
      forall k | 0 <= k < i ensures !IsDigit(s[k]) { assert s[k] == s[..i][k]; }
    }
    assert forall k :: 0 <= k < p ==> !IsDigit(s[k]) by {
      forall k | 0 <= k < p ensures !IsDigit(s[k]) { assert s[k] == prefix[k]; }
    }
    assert i == p;
    assert forall k :: i <= k < j ==> IsDigit(s[k]) by {
      forall k | i <= k < j ensures IsDigit(s[k]) { assert s[k] == s[i..j][k - i]; }
    }
    assert forall k :: p <= k < q ==> IsDigit(s[k]) by {
      forall k | p <= k < q ensures IsDigit(s[k]) { assert s[k] == ds[k - p]; }
    }
    assert q < |s| ==> s[q] == rest[0];
    assert j == q;
    assert s[i..j] == ds;
  }

  /** An epoch written canonically is read back exactly. */
  lemma EpochOfDecimal(prefix: string, n: nat, rest: string)
    requires NoDigit(prefix)
    requires rest == [] || !IsDigit(rest[0])
    ensures Epoch(prefix + Decimal(n) + rest) == Success(n)
  {
    EpochOfName(prefix, Decimal(n), rest);
    DecimalRoundTrip(n);
  }

  /** The checkpoint name used as the example convention reads as epoch 10. */
  lemma ExampleCheckpointEpoch()
    ensures Epoch("10_18push0.7822.pth") == Success(10)
  {
    assert "10_18push0.7822.pth" == [] + "10" + "_18push0.7822.pth";
    EpochOfName([], "10", "_18push0.7822.pth");
    assert DecimalValue("10") == 10 by {
      assert "10"[..1] == "1";
      assert "1"[..0] == [];
    }
  }
}
