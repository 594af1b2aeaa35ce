/** fillnum and fillnum64: a right-aligned decimal field with thousands separators. */
module FillNum {

  // ----- Powers of ten

  function Pow10(n: nat): (r: nat)
    ensures r >= 1
  {
    if n == 0 then 1 else 10 * Pow10(n - 1)
  }

  lemma AtLeastOnce(d: nat, k: int)
    requires k >= 1
    ensures d * k >= d
  {
    assert d * k == d + d * (k - 1);
    assert d * (k - 1) >= 0;
  }

  /** Quotient and remainder are determined by their equation. */
  lemma DivModIs(a: nat, d: nat, q: nat, r: nat)
    requires d >= 1 && a == d * q + r && r < d
    ensures a / d == q && a % d == r
  {
    var q', r' := a / d, a % d;
    assert d * (q - q') == r' - r;
    if q > q' { AtLeastOnce(d, q - q'); }
    if q' > q { AtLeastOnce(d, q' - q); }
  }

  lemma Recompose(p: nat, h: nat, m: nat, r: nat)
    ensures p * (10 * h + m) + r == 10 * p * h + (m * p + r)
  {
  }

  lemma AtMost(m: nat, p: nat)
    requires m <= 9
    ensures m * p <= 9 * p
  {
  }

  /** The next decimal digit splits off from the quotient and joins the remainder. */
  lemma NextDigit(a: nat, p: nat)
    requires p >= 1
    ensures a / (10 * p) == a / p / 10
    ensures a % (10 * p) == a / p % 10 * p + a % p
  {
    var q, r := a / p, a % p;
    var h, m := q / 10, q % 10;
    Recompose(p, h, m, r);
    assert m * p <= 9 * p by { AtMost(m, p); }
    DivModIs(a, 10 * p, h, m * p + r);
  }

  function Quotient(a: nat, b: nat): nat
    requires b >= 1
  {
    a / b
  }

  /** The number without its last n digits. */
  function Leading(num: nat, n: nat): nat {
    Quotient(num, Pow10(n))
  }

  // ----- The field

  /** Every fourth place from the right belongs to a comma, so k places hold this many digits. */
  function Digits(k: nat): nat {
    k - k / 4
  }

  /** q is what is left of the number at this place. */
  function PlaceChar(q: nat, k: nat): char {
    if q == 0 then ' ' else if k % 4 == 3 then ',' else '0' + (q % 10) as char
  }

  /** The character k places from the right: blank once the number has run out. */
  function FieldChar(num: nat, k: nat): char {
    PlaceChar(Leading(num, Digits(k)), k)
  }

  function Field(num: nat, len: nat): (r: string)
    ensures |r| == len
  {
    seq(len, i requires 0 <= i < len => FieldChar(num, len - 1 - i))
  }

  /** A digit place uses up one digit of the number, a comma's place none. */
  lemma NextPlace(num: nat, k: nat)
    ensures var q := Leading(num, Digits(k));
      Leading(num, Digits(k + 1)) == if k % 4 == 3 then q else q / 10
  {
    NextDigit(num, Pow10(Digits(k)));
    assert Digits(k + 1) == if k % 4 == 3 then Digits(k) else Digits(k) + 1;
  }

  lemma FieldGrows(num: nat, len: nat)
    ensures Field(num, len + 1) == [FieldChar(num, len)] + Field(num, len)
  {
  }

  method Fill(s: array<char>, at: nat, len: nat, num0: nat)
    requires at + len <= s.Length
    modifies s
    ensures s[at..at + len] == Field(num0, len)
    ensures s[..at] == old(s[..at]) && s[at + len..] == old(s[at + len..])
  {
    var num := num0;
    var lenb := len;
    while lenb > 0
      invariant 0 <= lenb <= len && num == Leading(num0, Digits(len - lenb))
      invariant s[at + lenb..at + len] == Field(num0, len - lenb)
      invariant s[..at] == old(s[..at]) && s[at + len..] == old(s[at + len..])
    {
      hide Field, Leading;
      ghost var k, done := len - lenb, s[at + lenb..at + len];
      NextPlace(num0, k);
      FieldGrows(num0, k);
      if num == 0 {
        s[at + lenb - 1] := ' ';
      } else if (len - lenb) % 4 == 3 {
        s[at + lenb - 1] := ',';
      } else {
        s[at + lenb - 1] := '0' + (num % 10) as char;
        num := num / 10;
      }
      lenb := lenb - 1;
      assert s[at + lenb..at + len] == [s[at + lenb]] + done;
    }
  }

  predicate IsDigit(c: char) {
    '0' <= c <= '9'
  }

  lemma DigitChar(d: nat)
    requires d < 10
    ensures IsDigit('0' + d as char) && ('0' + d as char - '0') as nat == d
  {
  }

  lemma LeadingRunsOut(num: nat, n: nat)
    ensures Leading(num, n) == 0 <==> num < Pow10(n)
  {
    var p := Pow10(n);
    var q, r := num / p, num % p;
    assert num == p * q + r;
    if q > 0 { AtLeastOnce(p, q); }
  }

  lemma PlaceLooks(q: nat, k: nat)
    ensures var c := PlaceChar(q, k);
      if q == 0 then c == ' ' else if k % 4 == 3 then c == ',' else '0' <= c <= '9'
  {
    DigitChar(q % 10);
  }

  /**
   * The look of a field: blank where the number has run out; before that a comma in every fourth
   * place from the right and digits in all others.
   */
  lemma FieldLooks(num: nat, len: nat, k: nat)
    requires k < len
    ensures var c := Field(num, len)[len - 1 - k];
      if num < Pow10(k - k / 4) then c == ' ' else if k % 4 == 3 then c == ',' else '0' <= c <= '9'
  {
    LeadingRunsOut(num, Digits(k));
    PlaceLooks(Leading(num, Digits(k)), k);
    hide Pow10, Leading, PlaceChar;
    assert Field(num, len)[len - 1 - k] == FieldChar(num, k);
  }

  // ----- Reading it back

  function DigitCount(s: string): nat {
    if s == "" then 0 else (if IsDigit(s[0]) then 1 else 0) + DigitCount(s[1..])
  }

  function CharValue(c: char, weight: nat): nat {
    if IsDigit(c) then (c - '0') as nat * weight else 0
  }

  /** Reads a number from the right, skipping everything that is not a digit. */
  function Value(s: string): nat {
    if s == "" then 0 else CharValue(s[0], Pow10(DigitCount(s[1..]))) + Value(s[1..])
  }

  /** While the number lasts, every place that is not a comma's holds a digit. */
  lemma {:induction false} FieldIsFull(num: nat, len: nat)
    requires Leading(num, Digits(len)) > 0
    ensures DigitCount(Field(num, len)) == Digits(len)
  {
    if len == 0 {
      assert DigitCount("") == 0;
    } else {
      NextPlace(num, len - 1);
      FieldIsFull(num, len - 1);
      FieldGrows(num, len - 1);
      assert Field(num, len)[1..] == Field(num, len - 1);
    }
  }

  lemma ValueGrows(c: char, s: string)
    ensures Value([c] + s) == CharValue(c, Pow10(DigitCount(s))) + Value(s)
  {
    assert ([c] + s)[1..] == s;
  }

  lemma PlaceCharValue(q: nat, k: nat, weight: nat)
    ensures CharValue(PlaceChar(q, k), weight) == if q == 0 || k % 4 == 3 then 0 else q % 10 * weight
  {
    if q > 0 && k % 4 != 3 { DigitChar(q % 10); }
  }

  lemma TenTimes(n: nat)
    ensures Pow10(n + 1) == 10 * Pow10(n)
  {
  }

  /** What the character k places from the right contributes, in a field full up to there. */
  lemma PlaceValue(num: nat, k: nat, n: nat)
    requires Leading(num, Digits(k)) > 0 ==> n == Digits(k)
    ensures CharValue(FieldChar(num, k), Pow10(n)) + num % Pow10(Digits(k)) == num % Pow10(Digits(k + 1))
  {
    hide Pow10, CharValue, PlaceChar;
    PlaceCharValue(Leading(num, Digits(k)), k, Pow10(n));
    if k % 4 == 3 {
      assert Digits(k + 1) == Digits(k);
    } else {
      assert Digits(k + 1) == Digits(k) + 1;
      TenTimes(Digits(k));
      NextDigit(num, Pow10(Digits(k)));
    }
  }

  lemma EmptyField(num: nat)
    ensures Value(Field(num, 0)) == 0 == num % Pow10(Digits(0))
  {
  }

  /** What is printed reads back as the number, or as its last digits where it does not fit. */
  lemma {:induction false} FieldReadsBack(num: nat, len: nat)
    ensures Value(Field(num, len)) == num % Pow10(Digits(len))
  {
    if len == 0 {
      EmptyField(num);
    } else {
      hide Field, Value, FieldChar, CharValue, Pow10, Digits, DigitCount, Leading;
      var k := len - 1;
      FieldReadsBack(num, k);
      FieldGrows(num, k);
      ValueGrows(FieldChar(num, k), Field(num, k));
      if Leading(num, Digits(k)) > 0 { FieldIsFull(num, k); }
      PlaceValue(num, k, DigitCount(Field(num, k)));
    }
  }
}
