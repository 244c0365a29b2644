/** lwip_itoa: decimal digits written from the end of a buffer and moved to its front. */
module Itoa {
  const NUL: char := '\0'

  function Digit(d: nat): char
    requires d < 10
  {
    '0' + d as char
  }

  /** The digits of a number, none for zero. */
  function Digits(n: nat): string {
    if n == 0 then "" else Digits(n / 10) + [Digit(n % 10)]
  }

  function Magnitude(number: int): nat {
    if number >= 0 then number else -number
  }

  function Sign(number: int): string {
    if number < 0 then "-" else ""
  }

  /** The usual way to write a number. */
  function Decimal(number: int): string {
    if number == 0 then "0" else Sign(number) + Digits(Magnitude(number))
  }

  // ---- Reading a number ----

  predicate IsDigit(c: char) {
    '0' <= c <= '9'
  }

  predicate AllDigits(s: string) {
    forall k | 0 <= k < |s| :: IsDigit(s[k])
  }

  function Value(s: string): nat
    requires AllDigits(s)
  {
    if s == "" then 0 else
      Value(s[..|s| - 1]) * 10 + (s[|s| - 1] - '0') as nat
  }

  /** Reads an optional sign and then digits. */
  function Parse(s: string): int
    requires IsNumeral(s)
  {
    if s[0] == '-' then 0 - Value(s[1..]) else Value(s)
  }

  /** Digits, at least one, and no superfluous leading zero. */
  ghost predicate IsPlain(s: string) {
    && s != "" && AllDigits(s)
    && (s[0] == '0' ==> s == "0")
  }

  /** A number as one writes it: no leading zeros and no negative zero. */
  ghost predicate IsCanonical(s: string) {
    if s != "" && s[0] == '-' then IsPlain(s[1..]) && s[1] != '0' else IsPlain(s)
  }

  predicate IsNumeral(s: string) {
    s != "" && AllDigits(if s[0] == '-' then s[1..] else s)
  }

  lemma {:induction false} DigitsRead(n: nat)
    ensures AllDigits(Digits(n))
    ensures Value(Digits(n)) == n
    ensures n > 0 ==> Digits(n) != "" && Digits(n)[0] != '0'
  {
    if n > 0 {
      DigitsRead(n / 10);
      var s := Digits(n);
      assert s[..|s| - 1] == Digits(n / 10);
    }
  }

  /** Writing and reading undo each other, and what is written is canonical. */
  lemma DecimalReadsBack(number: int)
    ensures IsCanonical(Decimal(number)) && IsNumeral(Decimal(number)) && Parse(Decimal(number)) == number
    ensures NUL !in Decimal(number)
  {
    var s := Digits(Magnitude(number));
    DigitsRead(Magnitude(number));
    if number == 0 {
      assert "0"[..0] == "";
    } else if number < 0 {
      assert Decimal(number)[1..] == s;
    } else {
      assert Decimal(number) == s;
    }
  }

  lemma {:induction false} ValueWritten(s: string)
    requires s != "" && AllDigits(s) && s[0] != '0'
    ensures Value(s) > 0 && Digits(Value(s)) == s
  {
    hide Digits;
    var init, last := s[..|s| - 1], s[|s| - 1];
    if init == "" {
      NoDigits();
    } else {
      ValueWritten(init);
    }
    OneMoreDigit(Value(init), (last - '0') as nat);
    assert s == init + [last];
  }

  lemma OneMoreDigit(v: nat, d: nat)
    requires d < 10 && 10 * v + d > 0
    ensures Digits(10 * v + d) == Digits(v) + [Digit(d)]
  {
    assert (10 * v + d) / 10 == v && (10 * v + d) % 10 == d;
  }

  /** Reading and writing undo each other, too: the canonical text of a number is the one written. */
  lemma CanonicalIsDecimal(s: string)
    requires IsCanonical(s)
    ensures IsNumeral(s) && Decimal(Parse(s)) == s
  {
    if s[0] == '-' {
      ValueWritten(s[1..]);
    } else if s[0] == '0' {
      assert s[..0] == "";
    } else {
      ValueWritten(s);
    }
  }

  // ---- Writing a number ----

  /** The buffer holds a C string. */
  ghost predicate HoldsString(a: seq<char>, s: string) {
    |s| < |a| && a[..|s|] == s && a[|s|] == NUL
  }

  /** The digit loop of lwip_itoa: from the end of the buffer until the number or the room runs out. */
  method WriteDigits(result: array<char>, res: nat, end: nat, number: nat) returns (tmp: nat, n: nat)
    requires res <= end < result.Length && result[end] == NUL
    modifies result
    ensures res <= tmp <= end && (n == 0 || tmp == res)
    ensures Digits(n) + result[tmp..end] == Digits(number)
    ensures forall k | 0 <= k < tmp || end <= k < result.Length :: result[k] == old(result[k])
  {
    tmp, n := end, number;
    while n != 0 && tmp > res
      invariant res <= tmp <= end
      invariant Digits(n) + result[tmp..end] == Digits(number)
      invariant forall k | 0 <= k < tmp || end <= k < result.Length :: result[k] == old(result[k])
      decreases n
    {
      ghost var before := result[tmp..end];
      tmp := tmp - 1;
      result[tmp] := Digit(n % 10);
      assert result[tmp..end] == [Digit(n % 10)] + before;
      n := n / 10;
    }
  }

  /** The digits and the terminator are moved behind the sign (memmove). */
  method MoveDigits(a: array<char>, res: nat, tmp: nat, end: nat)
    requires res <= tmp <= end < a.Length && a[end] == NUL
    modifies a
    ensures HoldsString(a[..], old(a[..res]) + old(a[tmp..end]))
    ensures forall k | end < k < a.Length :: a[k] == old(a[k])
  {
    var n := end - tmp;
    ghost var front, text := a[..res], a[tmp..end];
    forall k | 0 <= k <= n {
      a[res + k] := a[tmp + k];
    }
    assert a[..res] == front;
    assert a[res..res + n] == text;
    assert a[..res + n] == a[..res] + a[res..res + n];
    assert a[..][..res + n] == a[..res + n];
  }

  lemma NoNulDigit(s: string)
    requires AllDigits(s)
    ensures s != "" ==> s[0] != NUL
  {
  }

  lemma SignAndDigits(number: int, front: string, text: string)
    requires number != 0 && front == Sign(number) && text == Digits(Magnitude(number))
    ensures Decimal(number) == front + text
  {
  }

  lemma TooLong(number: int, n: nat, room: string)
    requires n > 0 && Digits(n) + room == Digits(Magnitude(number))
    ensures |Decimal(number)| > |Sign(number)| + |room|
  {
    hide Digits;
    DigitsRead(n);
    DigitsRead(Magnitude(number));
    NoDigits();
  }

  lemma NoDigits()
    ensures Digits(0) == ""
  {
  }

  /** lwip_itoa, for numbers whose negation is representable: the decimal text if it fits with its
      terminator, and the empty string otherwise. */
  method LwipItoa(result: array<char>, bufsize: nat, number: int)
    requires bufsize <= result.Length && -0x8000_0000 < number < 0x8000_0000
    modifies result
    ensures bufsize == 0 ==> result[..] == old(result[..])
    ensures bufsize > 0 ==> HoldsString(result[..], if |Decimal(number)| < bufsize then Decimal(number) else "")
    ensures forall k | bufsize <= k < result.Length :: result[k] == old(result[k])
  {
    hide Digits, Decimal, IsDigit, Magnitude, HoldsString;
    if bufsize < 2 {
      if bufsize == 1 {
        NonEmpty(number);
        result[0] := NUL;
        HoldsEmpty(result[..]);
      }
      return;
    }
    DigitsRead(Magnitude(number));
    NoDigits();
    var res := 0;
    var n := Magnitude(number);
    if number < 0 {
      result[0] := '-';
      res := 1;
    }
    assert result[..res] == Sign(number);
    var end := bufsize - 1;
    result[end] := NUL;
    ghost var front := result[..res];
    var tmp;
    tmp, n := WriteDigits(result, res, end, n);
    ghost var text := result[tmp..end];
    assert result[..res] == front == Sign(number);
    if n != 0 {
      TooLong(number, n, text);
      result[0] := NUL;
      HoldsEmpty(result[..]);
      return;
    }
    assert Digits(0) + text == text;
    if result[tmp] == NUL {
      NoNulDigit(text);
      Zero(number);
      result[res] := '0';
      result[res + 1] := NUL;
      HoldsZero(result[..]);
      return;
    }
    NonZero(number, text);
    SignAndDigits(number, front, text);
    MoveDigits(result, res, tmp, end);
  }

  lemma NonEmpty(number: int)
    ensures |Decimal(number)| > 0
  {
    DigitsRead(Magnitude(number));
  }

  lemma HoldsEmpty(a: seq<char>)
    requires a != [] && a[0] == NUL
    ensures HoldsString(a, "")
  {
  }

  lemma HoldsZero(a: seq<char>)
    requires |a| > 1 && a[0] == '0' && a[1] == NUL
    ensures HoldsString(a, "0")
  {
    assert a[..1] == "0";
  }

  lemma Zero(number: int)
    requires Digits(Magnitude(number)) == ""
    ensures number == 0 && Decimal(number) == "0"
  {
    DigitsRead(Magnitude(number));
  }

  lemma NonZero(number: int, text: string)
    requires text == Digits(Magnitude(number)) && text != ""
    ensures number != 0
  {
    hide Digits;
    NoDigits();
  }
}
