/** Byte budgets for text in records: cuts that never split a character. */
module RecordLimits {
  import opened Prelude
  import opened Utf8

  const MAX_ERROR_NAME_BYTES := 256
  const MAX_ERROR_MESSAGE_BYTES := 16 * 1024

  datatype Truncation = Truncation(originalBytes: nat, maxBytes: nat)

  datatype BudgetError = InvalidBudget

  /** The first k characters fit the budget, and one more would not. */
  predicate LongestPrefix(text: Text, k: nat, budget: int) {
    k <= |text| && Boundary(text, k) <= budget && (k < |text| ==> Boundary(text, k + 1) > budget)
  }

  /** The characters from j on fit the budget, and one more would not. */
  predicate LongestSuffix(text: Text, j: nat, budget: int) {
    j <= |text| && |Encode(text[j..])| <= budget && (j > 0 ==> |Encode(text[j - 1..])| > budget)
  }

  lemma {:induction false} LongestPrefixUnique(text: Text, j: nat, k: nat, budget: int)
    requires LongestPrefix(text, j, budget) && LongestPrefix(text, k, budget)
    ensures j == k
  {
    if j < k {
      BoundariesIncrease(text, j + 1, k);
    } else if k < j {
      BoundariesIncrease(text, k + 1, j);
    }
  }

  /** A position that is the end, or not inside a character, is where a character starts. */
  lemma {:induction false} PositionIsBoundary(text: Text, p: nat) returns (k: nat)
    requires p <= |Encode(text)| && (p < |Encode(text)| ==> !IsContinuation(Encode(text)[p]))
    ensures k <= |text| && Boundary(text, k) == p
    ensures Encode(text)[..p] == Encode(text[..k]) && Encode(text)[p..] == Encode(text[k..])
  {
    if p == |Encode(text)| {
      k := |text|;
      assert text[..k] == text;
    } else {
      k := CharacterAt(text, p);
      ContinuationExactlyInside(text, p);
    }
    CutAtBoundary(text, k);
  }

  /** Where character k starts there is no continuation byte. */
  lemma {:induction false} BoundaryIsPosition(text: Text, k: nat)
    requires k < |text|
    ensures Boundary(text, k) < |Encode(text)| && !IsContinuation(Encode(text)[Boundary(text, k)])
  {
    NextBoundary(text, k);
    var bytes := Encode(text)[Boundary(text, k)..Boundary(text, k + 1)];
    assert bytes[0] == Encode(text)[Boundary(text, k)];
  }

  /** `limitText`: the longest whole-character prefix within the budget, at most 3 bytes below it. */
  method LimitText(value: Text, maxBytes: int) returns (r: Result<(Text, Option<Truncation>), BudgetError>)
    ensures r.Err? <==> maxBytes < 0
    ensures r.Ok? ==>
      var (kept, truncation) := r.value;
      && kept <= value && LongestPrefix(value, |kept|, maxBytes)
      && truncation == (if |Encode(value)| <= maxBytes then None else Some(Truncation(|Encode(value)|, maxBytes)))
      && (truncation.Some? ==> |Encode(kept)| >= maxBytes - 3)
      && (truncation.None? ==> kept == value)
  {
    if maxBytes < 0 {
      return Err(InvalidBudget);
    }
    var encoded := Encode(value);
    if |encoded| <= maxBytes {
      assert value[..|value|] == value;
      return Ok((value, None));
    }
    var end: nat := maxBytes;
    while end > 0 && IsContinuation(encoded[end])
      invariant end <= maxBytes
      invariant forall p | end < p <= maxBytes :: IsContinuation(encoded[p])
    {
      end := end - 1;
    }
    FirstByte(value);
    ghost var k := PositionIsBoundary(value, end);
    DecodeEncode(value[..k]);
    PrefixEnds(value, k, maxBytes);
    return Ok((Decode(encoded[..end]).value, Some(Truncation(|encoded|, maxBytes))));
  }

  lemma {:induction false} FirstByte(text: Text)
    ensures Encode(text) != [] ==> !IsContinuation(Encode(text)[0])
  {
  }

  /** With only continuation bytes up to the budget, the next character ends beyond it. */
  lemma {:induction false} PrefixEnds(text: Text, k: nat, budget: nat)
    requires k <= |text| && Boundary(text, k) <= budget < |Encode(text)|
    requires forall p | Boundary(text, k) < p <= budget :: IsContinuation(Encode(text)[p])
    ensures LongestPrefix(text, k, budget) && k < |text|
    ensures Boundary(text, k) >= budget - 3
    ensures |text[..k]| == k
  {
    assert text[..|text|] == text;
    NextBoundary(text, k);
    if k + 1 < |text| {
      BoundaryIsPosition(text, k + 1);
    } else {
      assert text[..k + 1] == text;
    }
  }

  /** `limitTextSuffix`: the longest whole-character suffix within the budget. */
  method LimitTextSuffix(value: Text, maxBytes: int) returns (r: Result<Text, BudgetError>)
    ensures r.Err? <==> maxBytes < 0
    ensures r.Ok? ==>
      && |r.value| <= |value| && r.value == value[|value| - |r.value|..]
      && LongestSuffix(value, |value| - |r.value|, maxBytes)
      && (|Encode(value)| > maxBytes ==> |Encode(r.value)| >= maxBytes - 3)
  {
    if maxBytes < 0 {
      return Err(InvalidBudget);
    }
    var encoded := Encode(value);
    if |encoded| <= maxBytes {
      assert value[0..] == value;
      return Ok(value);
    }
    var start := |encoded| - maxBytes;
    while start < |encoded| && IsContinuation(encoded[start])
      invariant |encoded| - maxBytes <= start <= |encoded|
      invariant forall p | |encoded| - maxBytes <= p < start :: IsContinuation(encoded[p])
    {
      start := start + 1;
    }
    ghost var k := PositionIsBoundary(value, start);
    DecodeEncode(value[k..]);
    SuffixStarts(value, k, maxBytes);
    return Ok(Decode(encoded[start..]).value);
  }

  lemma {:induction false} SuffixStarts(text: Text, k: nat, budget: nat)
    requires k <= |text| && budget < |Encode(text)| && |Encode(text)| - budget <= Boundary(text, k) <= |Encode(text)|
    requires forall p | |Encode(text)| - budget <= p < Boundary(text, k) :: IsContinuation(Encode(text)[p])
    ensures LongestSuffix(text, k, budget)
    ensures |Encode(text[k..])| >= budget - 3
    ensures k > 0 && |text[k..]| == |text| - k
  {
    EncodeSplits(text, k);
    assert text[..0] == [];
    NextBoundary(text, k - 1);
    BoundaryIsPosition(text, k - 1);
    EncodeSplits(text, k - 1);
  }

  // ---- Error details -------------------------------------------------------

  function Digits(n: nat): (digits: Text)
    ensures |Encode(digits)| == |digits|
  {
    var last := 48 + n % 10;
    if n < 10 then AsciiOne(last); [last]
    else
      AsciiAppended(Digits(n / 10), last);
      Digits(n / 10) + [last]
  }

  function DecimalValue(digits: Text): int {
    if digits == [] then 0
    else DecimalValue(digits[..|digits| - 1]) * 10 + (digits[|digits| - 1] as int - 48)
  }

  /** The digits are those of the number in decimal notation, without a leading zero. */
  lemma {:induction false} DigitsAreDecimal(n: nat)
    ensures DecimalValue(Digits(n)) == n
    ensures Digits(n) != [] && forall i | 0 <= i < |Digits(n)| :: 48 <= Digits(n)[i] <= 57
    ensures Digits(n)[0] == 48 <==> n == 0
  {
    var last := 48 + n % 10;
    if n < 10 {
      assert Digits(n) == [last] && [last][..0] == [];
    } else {
      DigitsAreDecimal(n / 10);
      assert Digits(n) == Digits(n / 10) + [last] && (Digits(n / 10) + [last])[..|Digits(n / 10)|] == Digits(n / 10);
    }
  }

  lemma {:induction false} AsciiOne(c: Scalar)
    requires c < 128
    ensures |Encode([c])| == 1
  {
    assert [c][1..] == [];
  }

  lemma {:induction false} AsciiAppended(text: Text, c: Scalar)
    requires |Encode(text)| == |text| && c < 128
    ensures |Encode(text + [c])| == |text| + 1
  {
    EncodeSplits(text + [c], |text|);
    assert (text + [c])[..|text|] == text && (text + [c])[|text|..] == [c];
    AsciiOne(c);
  }

  lemma {:induction false} EncodeAppend(a: Text, b: Text)
    ensures Encode(a + b) == Encode(a) + Encode(b)
  {
    EncodeSplits(a + b, |a|);
    assert (a + b)[..|a|] == a && (a + b)[|a|..] == b;
  }

  function Power(n: nat): nat {
    if n == 0 then 1 else 10 * Power(n - 1)
  }

  lemma {:induction false} DigitsAreFew(n: nat, k: nat)
    requires k >= 1 && n < Power(k)
    ensures |Digits(n)| <= k
  {
    if n >= 10 {
      DigitsAreFew(n / 10, k - 1);
    }
  }

  /** The notice that replaces what was cut. */
  function Notice(before: Text, messageBytes: nat, after: Text): Text {
    before + Digits(messageBytes) + after
  }

  /**
   * `limitErrorDetails`: both fields stay within their budgets, and a message that had to be cut ends
   * with a notice of its length. `before` and `after` are the fixed parts of that notice, 48 bytes.
   */
  method LimitErrorDetails(name: Text, message: Text, before: Text, after: Text)
    returns (boundedName: Text, boundedMessage: Text)
    requires |Encode(before)| + |Encode(after)| == 48
    requires |Encode(message)| < Power(16)
    ensures boundedName <= name && LongestPrefix(name, |boundedName|, MAX_ERROR_NAME_BYTES)
    ensures |Encode(boundedMessage)| <= MAX_ERROR_MESSAGE_BYTES
    ensures |Encode(message)| <= MAX_ERROR_MESSAGE_BYTES ==> boundedMessage == message
    ensures |Encode(message)| > MAX_ERROR_MESSAGE_BYTES ==>
      var notice := Notice(before, |Encode(message)|, after);
      && |boundedMessage| >= |notice|
      && var kept := |boundedMessage| - |notice|;
      && LongestPrefix(message, kept, MAX_ERROR_MESSAGE_BYTES - |Encode(notice)|)
      && boundedMessage == message[..kept] + notice
  {
    var limitedName := LimitText(name, MAX_ERROR_NAME_BYTES);
    boundedName := limitedName.value.0;
    var messageBytes := |Encode(message)|;
    if messageBytes <= MAX_ERROR_MESSAGE_BYTES {
      return boundedName, message;
    }
    var notice := Notice(before, messageBytes, after);
    DigitsAreFew(messageBytes, 16);
    EncodeAppend(before + Digits(messageBytes), after);
    EncodeAppend(before, Digits(messageBytes));
    var limited := LimitText(message, MAX_ERROR_MESSAGE_BYTES - |Encode(notice)|);
    var prefix := limited.value.0;
    EncodeAppend(prefix, notice);
    boundedMessage := prefix + notice;
    assert prefix == message[..|prefix|];
  }
}
