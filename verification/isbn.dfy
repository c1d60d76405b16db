/** ISBN check digits (internal/service/book_metadata.go): what the checksum catches. */
module Isbn {
  predicate IsDigit(c: char) {
    '0' <= c <= '9'
  }

  /** The value of a character in the given place, or -1 when it may not stand there. */
  function Value10(i: nat, c: char): (v: int)
    ensures -1 <= v <= 10
  {
    if i == 9 && c == 'X' then 10
    else if IsDigit(c) then c as int - '0' as int
    else -1
  }

  function Value13(c: char): (v: int)
    ensures -1 <= v <= 9
  {
    if IsDigit(c) then c as int - '0' as int else -1
  }

  /** `w * v` by repeated addition: the sums below stay linear in what they add up. */
  function Times(w: nat, v: int): int {
    if w == 0 then 0 else v + Times(w - 1, v)
  }

  lemma {:induction false} TimesIsProduct(w: nat, v: int)
    ensures Times(w, v) == w * v
  {
    if w > 0 {
      TimesIsProduct(w - 1, v);
      assert w * v == (w - 1) * v + v;
    }
  }

  /** What a character in place `i` adds to the weighted sum. */
  function Term10(i: nat, c: char): int {
    if i <= 10 then Times(10 - i, Value10(i, c)) else 0
  }

  function Term13(i: nat, c: char): int {
    if i % 2 == 1 then 3 * Value13(c) else Value13(c)
  }

  function Sum10(s: string): int {
    if s == [] then 0 else Sum10(s[..|s| - 1]) + Term10(|s| - 1, s[|s| - 1])
  }

  function Sum13(s: string): int {
    if s == [] then 0 else Sum13(s[..|s| - 1]) + Term13(|s| - 1, s[|s| - 1])
  }

  predicate Shaped10(s: string) {
    |s| == 10 && forall i :: 0 <= i < 10 ==> Value10(i, s[i]) >= 0
  }

  predicate Prefixed13(s: string) {
    |s| == 13 && (s[..3] == "978" || s[..3] == "979")
  }

  predicate Shaped13(s: string) {
    Prefixed13(s) && forall i :: 0 <= i < 13 ==> Value13(s[i]) >= 0
  }

  /** What validISBN accepts. */
  predicate Accepted(s: string, length: int) {
    if length == 10 then Shaped10(s) && Sum10(s) % 11 == 0
    else length == |s| && Shaped13(s) && Sum13(s) % 10 == 0
  }

  /** Ten digits, or nine and an X. */
  predicate TenPlaces(s: string) {
    && |s| == 10 && (forall i :: 0 <= i < 9 ==> '0' <= s[i] <= '9')
    && ('0' <= s[9] <= '9' || s[9] == 'X')
  }

  function Digit(c: char): int {
    c as int - '0' as int
  }

  lemma Term10Is(i: nat, c: char)
    requires i < 10 && Value10(i, c) >= 0
    ensures Term10(i, c) == (10 - i) * (if i == 9 && c == 'X' then 10 else Digit(c))
  {
    TimesIsProduct(10 - i, Value10(i, c));
  }

  lemma Sum10Next(s: string, i: nat)
    requires i < |s| == 10 && Value10(i, s[i]) >= 0
    ensures Sum10(s[..i + 1]) == Sum10(s[..i]) + (10 - i) * (if i == 9 && s[i] == 'X' then 10 else Digit(s[i]))
  {
    assert s[..i + 1][..i] == s[..i];
    Term10Is(i, s[i]);
  }

  lemma FirstHalf10(s: string)
    requires Shaped10(s)
    ensures Sum10(s[..5])
      == 10 * Digit(s[0]) + 9 * Digit(s[1]) + 8 * Digit(s[2]) + 7 * Digit(s[3]) + 6 * Digit(s[4])
  {
    assert s[..0] == [];
    Sum10Next(s, 0);
    Sum10Next(s, 1);
    Sum10Next(s, 2);
    Sum10Next(s, 3);
    Sum10Next(s, 4);
  }

  lemma SecondHalf10(s: string)
    requires Shaped10(s)
    ensures Sum10(s)
      == Sum10(s[..5]) + 5 * Digit(s[5]) + 4 * Digit(s[6]) + 3 * Digit(s[7]) + 2 * Digit(s[8])
         + (if s[9] == 'X' then 10 else Digit(s[9]))
  {
    assert s[..10] == s;
    Sum10Next(s, 5);
    Sum10Next(s, 6);
    Sum10Next(s, 7);
    Sum10Next(s, 8);
    Sum10Next(s, 9);
  }

  /** An ISBN-10 written out: weights ten down to one, X for ten in the last place, modulo eleven. */
  lemma Accepted10Iff(s: string)
    ensures Accepted(s, 10) <==>
      && TenPlaces(s)
      && (10 * Digit(s[0]) + 9 * Digit(s[1]) + 8 * Digit(s[2]) + 7 * Digit(s[3]) + 6 * Digit(s[4])
          + 5 * Digit(s[5]) + 4 * Digit(s[6]) + 3 * Digit(s[7]) + 2 * Digit(s[8])
          + (if s[9] == 'X' then 10 else Digit(s[9]))) % 11 == 0
  {
    if Shaped10(s) {
      FirstHalf10(s);
      SecondHalf10(s);
    }
  }

  predicate ThirteenPlaces(s: string) {
    && |s| == 13 && (forall i :: 0 <= i < 13 ==> '0' <= s[i] <= '9')
    && s[0] == '9' && s[1] == '7' && (s[2] == '8' || s[2] == '9')
  }

  lemma Sum13Next(s: string, i: nat)
    requires i < |s| == 13 && Value13(s[i]) >= 0
    ensures Sum13(s[..i + 1]) == Sum13(s[..i]) + (if i % 2 == 1 then 3 * Digit(s[i]) else Digit(s[i]))
  {
    assert s[..i + 1][..i] == s[..i];
  }

  lemma FirstHalf13(s: string)
    requires |s| == 13 && forall i :: 0 <= i < 13 ==> Value13(s[i]) >= 0
    ensures Sum13(s[..6]) == Digit(s[0]) + Digit(s[2]) + Digit(s[4]) + 3 * (Digit(s[1]) + Digit(s[3]) + Digit(s[5]))
  {
    assert s[..0] == [];
    Sum13Next(s, 0);
    Sum13Next(s, 1);
    Sum13Next(s, 2);
    Sum13Next(s, 3);
    Sum13Next(s, 4);
    Sum13Next(s, 5);
  }

  lemma SecondHalf13(s: string)
    requires |s| == 13 && forall i :: 0 <= i < 13 ==> Value13(s[i]) >= 0
    ensures Sum13(s)
      == Sum13(s[..6]) + Digit(s[6]) + Digit(s[8]) + Digit(s[10]) + Digit(s[12])
         + 3 * (Digit(s[7]) + Digit(s[9]) + Digit(s[11]))
  {
    assert s[..13] == s;
    Sum13Next(s, 6);
    Sum13Next(s, 7);
    Sum13Next(s, 8);
    Sum13Next(s, 9);
    Sum13Next(s, 10);
    Sum13Next(s, 11);
    Sum13Next(s, 12);
  }

  lemma Shaped13Iff(s: string)
    ensures Shaped13(s) <==> ThirteenPlaces(s)
  {
    if |s| == 13 {
      assert s[..3] == [s[0], s[1], s[2]];
    }
  }

  /** An ISBN-13 written out: prefix 978 or 979, weights one and three by turns, modulo ten. */
  lemma Accepted13Iff(s: string)
    ensures Accepted(s, 13) <==>
      && ThirteenPlaces(s)
      && (Digit(s[0]) + Digit(s[2]) + Digit(s[4]) + Digit(s[6]) + Digit(s[8]) + Digit(s[10]) + Digit(s[12])
          + 3 * (Digit(s[1]) + Digit(s[3]) + Digit(s[5]) + Digit(s[7]) + Digit(s[9]) + Digit(s[11]))) % 10 == 0
  {
    Shaped13Iff(s);
    if Shaped13(s) {
      FirstHalf13(s);
      SecondHalf13(s);
    }
  }

  /** The two loops of validISBN; the catalogue calls it with length 10 or 13. */
  method ValidIsbn(value: string, length: int) returns (ok: bool)
    requires length == 10 || length == 13
    ensures ok <==> Accepted(value, length)
  {
    if |value| != length {
      return false;
    }
    if length == 10 {
      ok := Valid10(value);
    } else {
      ok := Valid13(value);
    }
  }

  method Valid10(value: string) returns (ok: bool)
    requires |value| == 10
    ensures ok <==> Accepted(value, 10)
  {
    var sum := 0;
    for i := 0 to 10
      invariant forall j :: 0 <= j < i ==> Value10(j, value[j]) >= 0
      invariant sum == Sum10(value[..i])
    {
      var digit := value[i] as int - '0' as int;
      if i == 9 && value[i] == 'X' {
        digit := 10;
      } else if value[i] < '0' || value[i] > '9' {
        return false;
      }
      TimesIsProduct(10 - i, digit);
      sum := sum + (10 - i) * digit;
      assert value[..i + 1][..i] == value[..i];
    }
    assert value[..10] == value;
    return sum % 11 == 0;
  }

  method Valid13(value: string) returns (ok: bool)
    requires |value| == 13
    ensures ok <==> Accepted(value, 13)
  {
    if value[..3] != "978" && value[..3] != "979" {
      return false;
    }
    var sum := 0;
    for i := 0 to 13
      invariant forall j :: 0 <= j < i ==> Value13(value[j]) >= 0
      invariant sum == Sum13(value[..i])
    {
      if value[i] < '0' || value[i] > '9' {
        return false;
      }
      var weight := 1;
      if i % 2 == 1 {
        weight := 3;
      }
      sum := sum + weight * (value[i] as int - '0' as int);
      assert value[..i + 1][..i] == value[..i];
    }
    assert value[..13] == value;
    return sum % 10 == 0;
  }

  // The check digit

  lemma OneResidue(sum: int, v: int)
    ensures 0 <= v < 11 ==> ((sum + v) % 11 == 0 <==> v == (11 - sum % 11) % 11)
    ensures 0 <= v < 10 ==> ((sum + v) % 10 == 0 <==> v == (10 - sum % 10) % 10)
  {
  }

  /** Nine digits are completed to an ISBN-10 by one character only, which brings the sum to a
    multiple of eleven. */
  lemma OneCheckDigit10(s: string, c: char)
    requires |s| == 9 && forall i :: 0 <= i < 9 ==> '0' <= s[i] <= '9'
    ensures Accepted(s + [c], 10) <==>
      (c == 'X' || '0' <= c <= '9') && (if c == 'X' then 10 else Digit(c)) == (11 - Sum10(s) % 11) % 11
  {
    var t := s + [c];
    assert t[..9] == s && t[9] == c;
    if Value10(9, c) >= 0 {
      assert forall i :: 0 <= i < 9 ==> t[i] == s[i] && Value10(i, t[i]) >= 0;
      Term10Is(9, c);
      OneResidue(Sum10(s), Value10(9, c));
    }
  }

  /** Twelve digits that begin with 978 or 979 are completed to an ISBN-13 by one digit only. */
  lemma OneCheckDigit13(s: string, c: char)
    requires |s| == 12 && forall i :: 0 <= i < 12 ==> '0' <= s[i] <= '9'
    requires s[0] == '9' && s[1] == '7' && (s[2] == '8' || s[2] == '9')
    ensures Accepted(s + [c], 13) <==> '0' <= c <= '9' && Digit(c) == (10 - Sum13(s) % 10) % 10
  {
    var t := s + [c];
    assert t[..12] == s && t[12] == c;
    assert t[..3] == [s[0], s[1], s[2]];
    if '0' <= c <= '9' {
      assert forall i :: 0 <= i < 12 ==> t[i] == s[i];
      OneResidue(Sum13(s), Digit(c));
    }
  }

  // Replacing one character

  lemma {:induction false} SumReplace10(s: string, i: nat, c: char)
    requires i < |s|
    ensures Sum10(s[i := c]) == Sum10(s) + Term10(i, c) - Term10(i, s[i])
  {
    var n := |s| - 1;
    if i == n {
      assert s[i := c][..n] == s[..n];
    } else {
      assert s[i := c][..n] == s[..n][i := c];
      SumReplace10(s[..n], i, c);
    }
  }

  lemma {:induction false} SumReplace13(s: string, i: nat, c: char)
    requires i < |s|
    ensures Sum13(s[i := c]) == Sum13(s) + Term13(i, c) - Term13(i, s[i])
  {
    var n := |s| - 1;
    if i == n {
      assert s[i := c][..n] == s[..n];
    } else {
      assert s[i := c][..n] == s[..n][i := c];
      SumReplace13(s[..n], i, c);
    }
  }

  /** 11 is prime: a weight up to 10 times a nonzero difference up to 10 is no multiple of it. */
  lemma ProductNotMultipleOf11(a: int, d: int)
    requires 1 <= a <= 10 && -10 <= d <= 10 && d != 0
    ensures (a * d) % 11 != 0
  {
    if a == 1 {} else if a == 2 {} else if a == 3 {} else if a == 4 {} else if a == 5 {}
    else if a == 6 {} else if a == 7 {} else if a == 8 {} else if a == 9 {} else { assert a == 10; }
  }

  /** Two sums that both pass differ by a multiple of 11. */
  lemma NoShift(sum: int, a: int, d: int)
    requires 1 <= a <= 10 && -10 <= d <= 10 && d != 0 && sum % 11 == 0
    ensures (sum + a * d) % 11 != 0
  {
    ProductNotMultipleOf11(a, d);
    ShiftedMultiple(sum, a * d);
  }

  lemma ShiftedMultiple(sum: int, change: int)
    requires sum % 11 == 0 && change % 11 != 0
    ensures (sum + change) % 11 != 0
  {
  }

  /** A place whose value changes from `x` to `y`. */
  lemma ChangeShifts(sum: int, w: nat, x: int, y: int)
    requires 1 <= w <= 10 && -1 <= x <= 10 && -1 <= y <= 10 && y - x != 0 && -10 <= y - x <= 10 && sum % 11 == 0
    ensures (sum + Times(w, y) - Times(w, x)) % 11 != 0
  {
    TimesIsProduct(w, x);
    TimesIsProduct(w, y);
    assert w * y - w * x == w * (y - x);
    NoShift(sum, w, y - x);
  }

  /** Two places, of weight `v` and `w`, that exchange the values `x` and `y`. */
  lemma ExchangeShifts(sum: int, v: nat, w: nat, x: int, y: int)
    requires 1 <= w < v <= 10 && 0 <= x <= 10 && 0 <= y <= 10 && x != y && sum % 11 == 0
    ensures (sum + Times(v, y) - Times(v, x) + Times(w, x) - Times(w, y)) % 11 != 0
  {
    TimesIsProduct(v, x);
    TimesIsProduct(v, y);
    TimesIsProduct(w, x);
    TimesIsProduct(w, y);
    assert v * y - v * x == v * (y - x) && w * x - w * y == -(w * (y - x));
    assert v * (y - x) - w * (y - x) == (v - w) * (y - x);
    NoShift(sum, v - w, y - x);
  }

  lemma SubstitutionRejected10(s: string, i: nat, c: char)
    requires Accepted(s, 10) && i < 10 && c != s[i] && Value10(i, c) >= 0
    ensures Sum10(s[i := c]) % 11 != 0
  {
    SumReplace10(s, i, c);
    ChangeShifts(Sum10(s), 10 - i, Value10(i, s[i]), Value10(i, c));
  }

  /** Neither one nor three times a nonzero difference of digits is a multiple of 10. */
  lemma DigitShift(sum: int, d: int)
    requires sum % 10 == 0 && -9 <= d <= 9 && d != 0
    ensures (sum + d) % 10 != 0 && (sum + 3 * d) % 10 != 0
  {
  }

  lemma SubstitutionRejected13(s: string, i: nat, c: char)
    requires Accepted(s, 13) && i < 13 && c != s[i] && Value13(c) >= 0
    ensures Sum13(s[i := c]) % 10 != 0
  {
    SumReplace13(s, i, c);
    assert Value13(s[i]) >= 0;
    DigitShift(Sum13(s), Value13(c) - Value13(s[i]));
  }

  /** Every single wrong character in an accepted ISBN is caught, in both lengths. */
  lemma SubstitutionRejected(s: string, length: int, i: nat, c: char)
    requires (length == 10 || length == 13) && Accepted(s, length) && i < |s| && c != s[i]
    ensures !Accepted(s[i := c], length)
  {
    var t := s[i := c];
    assert t[i] == c;
    if length == 10 && Value10(i, c) >= 0 {
      SubstitutionRejected10(s, i, c);
    } else if length == 13 && Value13(c) >= 0 {
      SubstitutionRejected13(s, i, c);
    }
  }

  // Swapping two characters

  function Swapped(s: string, i: nat, j: nat): string
    requires i < |s| && j < |s|
  {
    s[i := s[j]][j := s[i]]
  }

  lemma SumSwap10(s: string, i: nat, j: nat)
    requires i < j < |s| <= 10
    ensures Sum10(Swapped(s, i, j))
      == Sum10(s) + Term10(i, s[j]) - Term10(i, s[i]) + Term10(j, s[i]) - Term10(j, s[j])
  {
    SumReplace10(s, i, s[j]);
    SumReplace10(s[i := s[j]], j, s[i]);
  }

  /** In an ISBN-10 every exchange of two different characters is caught, wherever they stand. */
  lemma SwapRejected10(s: string, i: nat, j: nat)
    requires Accepted(s, 10) && i < j < 10 && s[i] != s[j]
    ensures !Accepted(Swapped(s, i, j), 10)
  {
    var t := Swapped(s, i, j);
    assert t[i] == s[j] && t[j] == s[i];
    if Shaped10(t) {
      SumSwap10(s, i, j);
      ValuesMeanDigits(i, j, s[i], s[j]);
      ExchangeShifts(Sum10(s), 10 - i, 10 - j, Value10(i, s[i]), Value10(j, s[j]));
    }
  }

  /** Characters that may stand in either of two places mean the same in both, and different things. */
  lemma ValuesMeanDigits(i: nat, j: nat, x: char, y: char)
    requires i < j < 10 && x != y
    requires Value10(i, x) >= 0 && Value10(j, y) >= 0 && Value10(i, y) >= 0 && Value10(j, x) >= 0
    ensures Value10(i, y) == Value10(j, y) && Value10(j, x) == Value10(i, x) && Value10(i, x) != Value10(j, y)
  {
  }

  lemma SumSwap13(s: string, i: nat)
    requires i + 1 < |s|
    ensures var d := Value13(s[i + 1]) - Value13(s[i]);
      Sum13(Swapped(s, i, i + 1)) == Sum13(s) + (if i % 2 == 0 then -2 * d else 2 * d)
  {
    SumReplace13(s, i, s[i + 1]);
    SumReplace13(s[i := s[i + 1]], i + 1, s[i]);
    NeighbourTerms(i, s[i], s[i + 1]);
  }

  lemma NeighbourTerms(i: nat, x: char, y: char)
    ensures var d := Value13(y) - Value13(x);
      Term13(i, y) - Term13(i, x) + Term13(i + 1, x) - Term13(i + 1, y) == (if i % 2 == 0 then -2 * d else 2 * d)
  {
  }

  /** In an ISBN-13 an exchange of two different neighbours goes unnoticed exactly when it is
    past the prefix and the digits differ by five. */
  lemma AdjacentSwap13(s: string, i: nat)
    requires Accepted(s, 13) && i + 1 < 13 && s[i] != s[i + 1]
    ensures Accepted(Swapped(s, i, i + 1), 13) <==>
      i >= 3 && (s[i + 1] as int - s[i] as int == 5 || s[i] as int - s[i + 1] as int == 5)
  {
    var t := Swapped(s, i, i + 1);
    assert t[i] == s[i + 1] && t[i + 1] == s[i];
    assert Value13(s[i]) >= 0 && Value13(s[i + 1]) >= 0;
    assert forall k :: 0 <= k < 13 ==> Value13(t[k]) >= 0;
    SumSwap13(s, i);
    PrefixSurvivesSwap(s, i);
    TwiceMultipleOf10(Value13(s[i + 1]) - Value13(s[i]), Sum13(s));
  }

  /** Past the prefix an exchange leaves it alone; inside it, it breaks it or moves the
    third character by one. */
  lemma PrefixSurvivesSwap(s: string, i: nat)
    requires Prefixed13(s) && i + 1 < 13 && s[i] != s[i + 1]
    ensures i >= 3 ==> Prefixed13(Swapped(s, i, i + 1))
    ensures i < 2 ==> !Prefixed13(Swapped(s, i, i + 1))
    ensures i == 2 && Prefixed13(Swapped(s, i, i + 1)) ==> -1 <= s[3] as int - s[2] as int <= 1
  {
    var t := Swapped(s, i, i + 1);
    assert forall k :: 0 <= k < 3 ==> s[..3][k] == s[k] && t[..3][k] == t[k];
    if i >= 3 {
      assert t[..3] == s[..3];
    }
  }

  lemma TwiceMultipleOf10(d: int, sum: int)
    requires -9 <= d <= 9 && d != 0 && sum % 10 == 0
    ensures (sum - 2 * d) % 10 == 0 <==> d == 5 || d == -5
    ensures (sum + 2 * d) % 10 == 0 <==> d == 5 || d == -5
  {
  }
}
