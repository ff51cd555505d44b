/**
 * The pulse resolver: validated seven-entry pulse counts and phone numbers, the
 * mapping from digits to pulses (digit 0 is ten pulses), the L1 distance between
 * two pulse-count vectors and the lookup of stored numbers within a distance.
 */
module ErrorCorrection {
  import opened Wrappers

  const MIN_DISTANCE: int := 7
  const NUMBER_LENGTH: nat := 7

  /** The ValueError cases the constructors raise. */
  datatype ValueError =
    | WrongLength      // "Phone numbers must have exactly 7 digits"
    | NegativeEntry    // "All digits must be >= 0"
    | DigitOutOfRange  // "All digits must be in the range 0 to 9"
    | NotADigit(c: char)  // `int(c)` of a character that is not a decimal digit

  predicate IsPulseCounts(xs: seq<int>)
  {
    |xs| == NUMBER_LENGTH && forall i :: 0 <= i < |xs| ==> xs[i] >= 0
  }

  predicate IsPhoneNumber(xs: seq<int>)
  {
    |xs| == NUMBER_LENGTH && forall i :: 0 <= i < |xs| ==> 0 <= xs[i] <= 9
  }

  type PulseCounts = xs: seq<int> | IsPulseCounts(xs) witness [0, 0, 0, 0, 0, 0, 0]
  type PhoneNumber = xs: seq<int> | IsPhoneNumber(xs) witness [0, 0, 0, 0, 0, 0, 0]

  /** `as_pulse_counts`: the input itself when it has seven non-negative entries, a ValueError otherwise. */
  function AsPulseCounts(number: seq<int>): (r: Result<PulseCounts, ValueError>)
    ensures r.Ok? <==> (|number| == NUMBER_LENGTH && forall i :: 0 <= i < |number| ==> number[i] >= 0)
    ensures r.Ok? ==> r.value == number
    ensures r.Err? && |number| == NUMBER_LENGTH ==> r.error == NegativeEntry
    ensures r.Err? && |number| != NUMBER_LENGTH ==> r.error == WrongLength
  {
    if |number| != NUMBER_LENGTH then Err(WrongLength)
    else if exists i :: 0 <= i < |number| && number[i] < 0 then Err(NegativeEntry)
    else Ok(number)
  }

  /** `as_phone_number` on a sequence of integers: seven entries, each in 0..9. */
  function AsPhoneNumber(number: seq<int>): (r: Result<PhoneNumber, ValueError>)
    ensures r.Ok? <==> (|number| == NUMBER_LENGTH && forall i :: 0 <= i < |number| ==> 0 <= number[i] <= 9)
    ensures r.Ok? ==> r.value == number
    ensures r.Err? && |number| == NUMBER_LENGTH ==> r.error == DigitOutOfRange
    ensures r.Err? && |number| != NUMBER_LENGTH ==> r.error == WrongLength
  {
    if |number| != NUMBER_LENGTH then Err(WrongLength)
    else if exists i :: 0 <= i < |number| && (number[i] < 0 || number[i] > 9) then Err(DigitOutOfRange)
    else Ok(number)
  }

  predicate IsDecimalChar(c: char)
  {
    '0' <= c <= '9'
  }

  /** `tuple(int(c) for c in value)`: the digit values, or the first character `int` rejects. */
  function DigitValues(value: string): (r: Result<seq<int>, ValueError>)
    ensures r.Ok? <==> forall i :: 0 <= i < |value| ==> IsDecimalChar(value[i])
    ensures r.Ok? ==> |r.value| == |value| && forall i :: 0 <= i < |value| ==> r.value[i] == value[i] as int - '0' as int
    ensures r.Err? ==> exists i :: 0 <= i < |value| && !IsDecimalChar(value[i]) && r.error == NotADigit(value[i])
  {
    if value == [] then Ok([])
    else if !IsDecimalChar(value[0]) then Err(NotADigit(value[0]))
    else
      match DigitValues(value[1..])
      case Err(e) => Err(e)
      case Ok(rest) => Ok([value[0] as int - '0' as int] + rest)
  }

  /** `as_phone_number` on a string: converted character by character, then validated. */
  function AsPhoneNumberFromString(value: string): (r: Result<PhoneNumber, ValueError>)
    ensures r.Ok? <==> (|value| == NUMBER_LENGTH && forall i :: 0 <= i < |value| ==> IsDecimalChar(value[i]))
    ensures r.Ok? ==> forall i :: 0 <= i < NUMBER_LENGTH ==> r.value[i] == value[i] as int - '0' as int
  {
    match DigitValues(value)
    case Err(e) => Err(e)
    case Ok(digits) => AsPhoneNumber(digits)
  }

  /** The seven-character decimal string of a phone number. */
  function PhoneNumberString(number: PhoneNumber): (s: string)
    ensures |s| == NUMBER_LENGTH
  {
    seq(NUMBER_LENGTH, i requires 0 <= i < NUMBER_LENGTH => ('0' as int + number[i]) as char)
  }

  /** A phone number survives the trip to its string and back. */
  lemma PhoneNumberStringRoundTrip(number: PhoneNumber)
    ensures AsPhoneNumberFromString(PhoneNumberString(number)) == Ok(number)
  {
    var s := PhoneNumberString(number);
    var r := AsPhoneNumberFromString(s);
    assert DigitValues(s).Ok?;
    assert r.Ok?;
    assert forall i :: 0 <= i < NUMBER_LENGTH ==> r.value[i] == number[i];
    assert r.value == number;
  }

  /** Every string `as_phone_number` accepts is the string of the number it yields. */
  lemma StringPhoneNumberRoundTrip(value: string)
    requires AsPhoneNumberFromString(value).Ok?
    ensures PhoneNumberString(AsPhoneNumberFromString(value).value) == value
  {
    var n := AsPhoneNumberFromString(value).value;
    var s := PhoneNumberString(n);
    assert forall i :: 0 <= i < NUMBER_LENGTH ==> s[i] == value[i];
  }

  /** `to_pulse_counts`: digit 0 is ten pulses, every other digit its own count. */
  function ToPulseCounts(number: PhoneNumber): (r: PulseCounts)
    ensures forall i :: 0 <= i < NUMBER_LENGTH ==> 1 <= r[i] <= 10 && r[i] % 10 == number[i]
  {
    seq(NUMBER_LENGTH, i requires 0 <= i < NUMBER_LENGTH => if number[i] == 0 then 10 else number[i])
  }

  /** Different numbers give different pulse counts. */
  lemma ToPulseCountsInjective(a: PhoneNumber, b: PhoneNumber)
    requires ToPulseCounts(a) == ToPulseCounts(b)
    ensures a == b
  {
    var pa, pb := ToPulseCounts(a), ToPulseCounts(b);
    forall i | 0 <= i < NUMBER_LENGTH ensures a[i] == b[i] {
      assert pa[i] == pb[i];
    }
  }

  function Abs(x: int): nat
  {
    if x < 0 then -x else x
  }

  /** `sum(abs(l - r) for l, r in zip(left, right))`; `zip` stops at the shorter input. */
  function ZipDistance(left: seq<int>, right: seq<int>): nat
  {
    if left == [] || right == [] then 0
    else Abs(left[0] - right[0]) + ZipDistance(left[1..], right[1..])
  }

  /** `_signal_distance`: the number of miscounted pulses between two signals. */
  function SignalDistance(left: PulseCounts, right: PulseCounts): nat
  {
    ZipDistance(left, right)
  }

  lemma {:induction false} ZipDistanceSymmetric(left: seq<int>, right: seq<int>)
    ensures ZipDistance(left, right) == ZipDistance(right, left)
  {
    if left != [] && right != [] {
      ZipDistanceSymmetric(left[1..], right[1..]);
    }
  }

  lemma {:induction false} ZipDistanceZero(left: seq<int>, right: seq<int>)
    requires |left| == |right|
    ensures ZipDistance(left, right) == 0 <==> left == right
  {
    if left != [] {
      ZipDistanceZero(left[1..], right[1..]);
      if left[1..] == right[1..] && left[0] == right[0] {
        assert left == [left[0]] + left[1..] && right == [right[0]] + right[1..];
      }
    }
  }

  lemma {:induction false} ZipDistanceTriangle(a: seq<int>, b: seq<int>, c: seq<int>)
    requires |a| == |b| == |c|
    ensures ZipDistance(a, c) <= ZipDistance(a, b) + ZipDistance(b, c)
  {
    if a != [] {
      ZipDistanceTriangle(a[1..], b[1..], c[1..]);
    }
  }

  /** The signal distance is a metric: symmetric, zero exactly on equal signals, and obeying the triangle inequality. */
  lemma SignalDistanceIsMetric(a: PulseCounts, b: PulseCounts, c: PulseCounts)
    ensures SignalDistance(a, b) == SignalDistance(b, a)
    ensures SignalDistance(a, b) == 0 <==> a == b
    ensures SignalDistance(a, c) <= SignalDistance(a, b) + SignalDistance(b, c)
  {
    ZipDistanceSymmetric(a, b);
    ZipDistanceZero(a, b);
    ZipDistanceTriangle(a, b, c);
  }

  /**
   * `find_closest_phone_numbers`: each stored number paired with the distance of its
   * pulse counts from the observed signal, kept when that distance is at most `minDistance`.
   */
  function FindClosestPhoneNumbers(pulseCounts: PulseCounts, existingNumbers: seq<PhoneNumber>, minDistance: int)
    : (r: seq<(PhoneNumber, int)>)
    ensures |r| <= |existingNumbers|
  {
    if existingNumbers == [] then []
    else
      var number := existingNumbers[0];
      var distance := SignalDistance(pulseCounts, ToPulseCounts(number));
      var rest := FindClosestPhoneNumbers(pulseCounts, existingNumbers[1..], minDistance);
      if distance <= minDistance then [(number, distance as int)] + rest else rest
  }

  /** Every match is a stored number, paired with its true distance, and within the threshold. */
  lemma {:induction false} FindClosestSound(pulseCounts: PulseCounts, existingNumbers: seq<PhoneNumber>, minDistance: int, i: nat)
    requires i < |FindClosestPhoneNumbers(pulseCounts, existingNumbers, minDistance)|
    ensures var m := FindClosestPhoneNumbers(pulseCounts, existingNumbers, minDistance)[i];
            && m.0 in existingNumbers
            && m.1 == SignalDistance(pulseCounts, ToPulseCounts(m.0))
            && m.1 <= minDistance
  {
    var rest := FindClosestPhoneNumbers(pulseCounts, existingNumbers[1..], minDistance);
    var d := SignalDistance(pulseCounts, ToPulseCounts(existingNumbers[0]));
    if d <= minDistance && i == 0 {
    } else {
      var j := if d <= minDistance then i - 1 else i;
      assert FindClosestPhoneNumbers(pulseCounts, existingNumbers, minDistance)[i] == rest[j];
      FindClosestSound(pulseCounts, existingNumbers[1..], minDistance, j);
    }
  }

  /** Every stored number within the threshold is matched, with its distance. */
  lemma {:induction false} FindClosestComplete(pulseCounts: PulseCounts, existingNumbers: seq<PhoneNumber>, minDistance: int, n: PhoneNumber)
    requires n in existingNumbers
    requires SignalDistance(pulseCounts, ToPulseCounts(n)) <= minDistance
    ensures (n, SignalDistance(pulseCounts, ToPulseCounts(n)) as int) in FindClosestPhoneNumbers(pulseCounts, existingNumbers, minDistance)
  {
    if existingNumbers[0] != n {
      FindClosestComplete(pulseCounts, existingNumbers[1..], minDistance, n);
    }
  }

  /** Candidate order is kept: the matches of a concatenation are the matches of each part, in turn. */
  lemma {:induction false} FindClosestAppend(pulseCounts: PulseCounts, xs: seq<PhoneNumber>, ys: seq<PhoneNumber>, minDistance: int)
    ensures FindClosestPhoneNumbers(pulseCounts, xs + ys, minDistance)
         == FindClosestPhoneNumbers(pulseCounts, xs, minDistance) + FindClosestPhoneNumbers(pulseCounts, ys, minDistance)
  {
    if xs == [] {
      assert xs + ys == ys;
    } else {
      var zs := xs + ys;
      assert zs[0] == xs[0] && zs[1..] == xs[1..] + ys;
      FindClosestAppend(pulseCounts, xs[1..], ys, minDistance);
    }
  }

  /** Nothing within range means an empty result, not an error. */
  lemma FindClosestEmpty(pulseCounts: PulseCounts, existingNumbers: seq<PhoneNumber>, minDistance: int)
    ensures FindClosestPhoneNumbers(pulseCounts, existingNumbers, minDistance) == []
        <==> forall n :: n in existingNumbers ==> SignalDistance(pulseCounts, ToPulseCounts(n)) > minDistance
  {
    var r := FindClosestPhoneNumbers(pulseCounts, existingNumbers, minDistance);
    if r != [] {
      FindClosestSound(pulseCounts, existingNumbers, minDistance, 0);
    } else {
      forall n | n in existingNumbers ensures SignalDistance(pulseCounts, ToPulseCounts(n)) > minDistance {
        if SignalDistance(pulseCounts, ToPulseCounts(n)) <= minDistance {
          FindClosestComplete(pulseCounts, existingNumbers, minDistance, n);
        }
      }
    }
  }

  /**
   * `find_similar_numbers`: the stored numbers confusably close to a new number,
   * at twice the lookup distance.
   */
  function FindSimilarNumbers(newNumber: PhoneNumber, existingNumbers: seq<PhoneNumber>, minDistance: int)
    : (r: seq<(PhoneNumber, int)>)
  {
    FindClosestPhoneNumbers(ToPulseCounts(newNumber), existingNumbers, 2 * minDistance)
  }

  /** A registered number is always reported as similar to itself, at distance 0. */
  lemma FindSimilarIncludesItself(newNumber: PhoneNumber, existingNumbers: seq<PhoneNumber>, minDistance: int)
    requires newNumber in existingNumbers && minDistance >= 0
    ensures (newNumber, 0) in FindSimilarNumbers(newNumber, existingNumbers, minDistance)
  {
    var p := ToPulseCounts(newNumber);
    ZipDistanceZero(p, p);
    FindClosestComplete(p, existingNumbers, 2 * minDistance, newNumber);
  }

  /** Every reported similar number is stored and within twice the lookup distance. */
  lemma FindSimilarWithinTwiceDistance(newNumber: PhoneNumber, existingNumbers: seq<PhoneNumber>, minDistance: int, i: nat)
    requires i < |FindSimilarNumbers(newNumber, existingNumbers, minDistance)|
    ensures var m := FindSimilarNumbers(newNumber, existingNumbers, minDistance)[i];
            m.0 in existingNumbers && m.1 == SignalDistance(ToPulseCounts(newNumber), ToPulseCounts(m.0)) <= 2 * minDistance
  {
    FindClosestSound(ToPulseCounts(newNumber), existingNumbers, 2 * minDistance, i);
  }

  /** The distance between two seven-entry signals, written out position by position. */
  lemma ZipDistanceOfSeven(a: seq<int>, b: seq<int>)
    requires |a| == 7 && |b| == 7
    ensures ZipDistance(a, b) == Abs(a[0] - b[0]) + Abs(a[1] - b[1]) + Abs(a[2] - b[2]) + Abs(a[3] - b[3])
                                 + Abs(a[4] - b[4]) + Abs(a[5] - b[5]) + Abs(a[6] - b[6])
  {
    var a1, b1 := a[1..], b[1..];
    var a2, b2 := a1[1..], b1[1..];
    var a3, b3 := a2[1..], b2[1..];
    var a4, b4 := a3[1..], b3[1..];
    var a5, b5 := a4[1..], b4[1..];
    var a6, b6 := a5[1..], b5[1..];
    var a7, b7 := a6[1..], b6[1..];
    assert a7 == [] && b7 == [];
    assert ZipDistance(a6, b6) == Abs(a[6] - b[6]);
    assert ZipDistance(a5, b5) == Abs(a[5] - b[5]) + ZipDistance(a6, b6);
    assert ZipDistance(a4, b4) == Abs(a[4] - b[4]) + ZipDistance(a5, b5);
    assert ZipDistance(a3, b3) == Abs(a[3] - b[3]) + ZipDistance(a4, b4);
    assert ZipDistance(a2, b2) == Abs(a[2] - b[2]) + ZipDistance(a3, b3);
    assert ZipDistance(a1, b1) == Abs(a[1] - b[1]) + ZipDistance(a2, b2);
  }

  /** The matches against the three stored numbers, given the three distances. */
  lemma FindClosestOfThree(p: PulseCounts, minDistance: int)
    ensures FindClosestPhoneNumbers(p, STORED_NUMBERS, minDistance)
         == (if SignalDistance(p, [10, 10, 10, 10, 10, 10, 10]) <= minDistance then [(STORED_NUMBERS[0], SignalDistance(p, [10, 10, 10, 10, 10, 10, 10]) as int)] else [])
          + (if SignalDistance(p, [5, 5, 5, 5, 5, 5, 5]) <= minDistance then [(STORED_NUMBERS[1], SignalDistance(p, [5, 5, 5, 5, 5, 5, 5]) as int)] else [])
          + (if SignalDistance(p, [10, 9, 8, 7, 6, 5, 4]) <= minDistance then [(STORED_NUMBERS[2], SignalDistance(p, [10, 9, 8, 7, 6, 5, 4]) as int)] else [])
  {
    var xs := STORED_NUMBERS;
    assert ToPulseCounts(xs[0]) == [10, 10, 10, 10, 10, 10, 10];
    assert ToPulseCounts(xs[1]) == [5, 5, 5, 5, 5, 5, 5];
    assert ToPulseCounts(xs[2]) == [10, 9, 8, 7, 6, 5, 4];
    assert xs == [xs[0]] + [xs[1]] + [xs[2]];
    FindClosestAppend(p, [xs[0]] + [xs[1]], [xs[2]], minDistance);
    FindClosestAppend(p, [xs[0]], [xs[1]], minDistance);
    assert [xs[0]][1..] == [] && [xs[1]][1..] == [] && [xs[2]][1..] == [];
  }

  const STORED_NUMBERS: seq<PhoneNumber> := [[0, 0, 0, 0, 0, 0, 0], [5, 5, 5, 5, 5, 5, 5], [0, 9, 8, 7, 6, 5, 4]]

  /** The matches of one signal against the stored numbers, from its three distances. */
  lemma MatchesFromDistances(p: PulseCounts, d0: nat, d1: nat, d2: nat)
    requires ZipDistance(p, [10, 10, 10, 10, 10, 10, 10]) == d0
    requires ZipDistance(p, [5, 5, 5, 5, 5, 5, 5]) == d1
    requires ZipDistance(p, [10, 9, 8, 7, 6, 5, 4]) == d2
    ensures FindClosestPhoneNumbers(p, STORED_NUMBERS, MIN_DISTANCE)
         == (if d0 <= MIN_DISTANCE then [(STORED_NUMBERS[0], d0 as int)] else [])
          + (if d1 <= MIN_DISTANCE then [(STORED_NUMBERS[1], d1 as int)] else [])
          + (if d2 <= MIN_DISTANCE then [(STORED_NUMBERS[2], d2 as int)] else [])
  {
    FindClosestOfThree(p, MIN_DISTANCE);
  }

  /**
   * The matches of a signal with the given seven entries. Taking the entries as parameters keeps
   * the solver from evaluating the distances of a literal signal by unfolding.
   */
  lemma MatchesOfSignal(p: PulseCounts, d0: nat, d1: nat, d2: nat)
    requires d0 == Abs(p[0] - 10) + Abs(p[1] - 10) + Abs(p[2] - 10) + Abs(p[3] - 10) + Abs(p[4] - 10) + Abs(p[5] - 10) + Abs(p[6] - 10)
    requires d1 == Abs(p[0] - 5) + Abs(p[1] - 5) + Abs(p[2] - 5) + Abs(p[3] - 5) + Abs(p[4] - 5) + Abs(p[5] - 5) + Abs(p[6] - 5)
    requires d2 == Abs(p[0] - 10) + Abs(p[1] - 9) + Abs(p[2] - 8) + Abs(p[3] - 7) + Abs(p[4] - 6) + Abs(p[5] - 5) + Abs(p[6] - 4)
    ensures FindClosestPhoneNumbers(p, STORED_NUMBERS, MIN_DISTANCE)
         == (if d0 <= MIN_DISTANCE then [(STORED_NUMBERS[0], d0 as int)] else [])
          + (if d1 <= MIN_DISTANCE then [(STORED_NUMBERS[1], d1 as int)] else [])
          + (if d2 <= MIN_DISTANCE then [(STORED_NUMBERS[2], d2 as int)] else [])
  {
    DistanceOfSeven(p, [10, 10, 10, 10, 10, 10, 10], d0);
    DistanceOfSeven(p, [5, 5, 5, 5, 5, 5, 5], d1);
    DistanceOfSeven(p, [10, 9, 8, 7, 6, 5, 4], d2);
    MatchesFromDistances(p, d0, d1, d2);
  }

  /** The distance between two seven-entry signals, given the sum of its terms. */
  lemma DistanceOfSeven(p: seq<int>, q: seq<int>, d: int)
    requires |p| == 7 && |q| == 7
    requires d == Abs(p[0] - q[0]) + Abs(p[1] - q[1]) + Abs(p[2] - q[2]) + Abs(p[3] - q[3])
                  + Abs(p[4] - q[4]) + Abs(p[5] - q[5]) + Abs(p[6] - q[6])
    ensures ZipDistance(p, q) == d
  {
    ZipDistanceOfSeven(p, q);
  }

  /** An exact 5555555 signal resolves to 5555555 alone. */
  lemma ResolvesConstantFives()
    ensures FindClosestPhoneNumbers([5, 5, 5, 5, 5, 5, 5], STORED_NUMBERS, MIN_DISTANCE) == [([5, 5, 5, 5, 5, 5, 5], 0)]
  {
    var p: seq<int> := [5, 5, 5, 5, 5, 5, 5];
    MatchesOfSignal(p, 35, 0, 16);
  }

  /** Seven single-pulse miscounts still resolve to 5555555 alone. */
  lemma ResolvesAlternatingMiscounts()
    ensures FindClosestPhoneNumbers([6, 4, 6, 4, 6, 4, 6], STORED_NUMBERS, MIN_DISTANCE) == [([5, 5, 5, 5, 5, 5, 5], 7)]
  {
    var p: seq<int> := [6, 4, 6, 4, 6, 4, 6];
    MatchesOfSignal(p, 34, 7, 17);
  }

  /** Seven miscounts bunched at the end still resolve to 5555555 alone. */
  lemma ResolvesTrailingMiscounts()
    ensures FindClosestPhoneNumbers([5, 5, 5, 5, 6, 8, 8], STORED_NUMBERS, MIN_DISTANCE) == [([5, 5, 5, 5, 5, 5, 5], 7)]
  {
    var p: seq<int> := [5, 5, 5, 5, 6, 8, 8];
    MatchesOfSignal(p, 28, 7, 21);
  }

  /** Eight miscounts from every stored number resolve to nothing. */
  lemma RejectsEightAlternatingMiscounts()
    ensures FindClosestPhoneNumbers([6, 4, 6, 4, 6, 4, 7], STORED_NUMBERS, MIN_DISTANCE) == []
  {
    var p: seq<int> := [6, 4, 6, 4, 6, 4, 7];
    MatchesOfSignal(p, 33, 8, 18);
  }

  /** Eight miscounts bunched at the end resolve to nothing. */
  lemma RejectsEightTrailingMiscounts()
    ensures FindClosestPhoneNumbers([5, 5, 5, 5, 7, 8, 8], STORED_NUMBERS, MIN_DISTANCE) == []
  {
    var p: seq<int> := [5, 5, 5, 5, 7, 8, 8];
    MatchesOfSignal(p, 27, 8, 22);
  }
}
