/** String order, and the fixed-width event ids whose string order is the emission order. */
module EventIds {
  /** JavaScript's `<` on strings (ASCII: one code unit per character). */
  predicate Less(a: string, b: string) {
    if b == [] then false
    else if a == [] then true
    else if a[0] != b[0] then a[0] < b[0]
    else Less(a[1..], b[1..])
  }

  predicate AtMost(a: string, b: string) {
    a == b || Less(a, b)
  }

  lemma {:induction false} LessAsymmetric(a: string, b: string)
    ensures !(Less(a, b) && Less(b, a))
    ensures !Less(a, a)
  {
    if a != [] {
      LessAsymmetric(a[1..], if b == [] then [] else b[1..]);
    }
  }

  lemma {:induction false} LessTotal(a: string, b: string)
    ensures Less(a, b) || a == b || Less(b, a)
  {
    if a != [] && b != [] {
      LessTotal(a[1..], b[1..]);
      assert a == [a[0]] + a[1..] && b == [b[0]] + b[1..];
    }
  }

  lemma {:induction false} LessTransitive(a: string, b: string, c: string)
    requires Less(a, b) && Less(b, c)
    ensures Less(a, c)
  {
    if a != [] && a[0] == b[0] && b[0] == c[0] {
      LessTransitive(a[1..], b[1..], c[1..]);
    }
  }

  /** After equally long heads, the tails decide only between equal heads. */
  lemma {:induction false} LessAppend(a: string, x: string, b: string, y: string)
    requires |a| == |b|
    ensures Less(a + x, b + y) <==> Less(a, b) || (a == b && Less(x, y))
  {
    if a == [] {
      assert a + x == x && b + y == y;
    } else {
      assert (a + x)[1..] == a[1..] + x && (b + y)[1..] == b[1..] + y;
      LessAppend(a[1..], x, b[1..], y);
      assert a == [a[0]] + a[1..] && b == [b[0]] + b[1..];
      if a == b {
        LessAsymmetric(a, a);
      }
    }
  }

  function Pow10(n: nat): (p: nat)
    ensures p > 0
  {
    if n == 0 then 1 else 10 * Pow10(n - 1)
  }

  function Digit(d: nat): char
    requires d < 10
  {
    '0' + d as char
  }

  /** `n` in decimal, zero-padded to `width` digits. */
  function Pad(n: nat, width: nat): (s: string)
    ensures |s| == width
    ensures forall i | 0 <= i < width :: '0' <= s[i] <= '9'
  {
    if width == 0 then [] else Pad(n / 10, width - 1) + [Digit(n % 10)]
  }

  lemma {:induction false} PadOrder(n: nat, m: nat, width: nat)
    requires n < Pow10(width) && m < Pow10(width)
    ensures Less(Pad(n, width), Pad(m, width)) <==> n < m
    ensures Pad(n, width) == Pad(m, width) <==> n == m
  {
    if width > 0 {
      PadOrder(n / 10, m / 10, width - 1);
      var a, b := Pad(n / 10, width - 1), Pad(m / 10, width - 1);
      var x, y := [Digit(n % 10)], [Digit(m % 10)];
      LessAppend(a, x, b, y);
      assert x[1..] == [] && y[1..] == [];
      assert Less(x, y) <==> n % 10 < m % 10;
      assert (a + x)[..|a|] == a && (b + y)[..|b|] == b;
      assert (a + x)[|a|] == x[0] && (b + y)[|b|] == y[0];
    }
  }

  const MS_DIGITS := 13
  const COUNTER_DIGITS := 6

  /** `{ms}-{counter}`, both zero-padded. */
  function EventId(ms: nat, counter: nat): (id: string)
    ensures |id| == MS_DIGITS + 1 + COUNTER_DIGITS
  {
    Pad(ms, MS_DIGITS) + "-" + Pad(counter, COUNTER_DIGITS)
  }

  lemma Widths()
    ensures Pow10(MS_DIGITS) == 10_000_000_000_000 && Pow10(COUNTER_DIGITS) == 1_000_000
  {
    assert Pow10(4) == 10_000;
    assert Pow10(8) == 100_000_000;
    assert Pow10(12) == 1_000_000_000_000;
  }

  /** The number that a decimal text stands for. */
  function Decimal(text: string): int {
    if text == [] then 0 else Decimal(text[..|text| - 1]) * 10 + (text[|text| - 1] as int - '0' as int)
  }

  lemma {:induction false} PadReads(n: nat, width: nat)
    requires n < Pow10(width)
    ensures Decimal(Pad(n, width)) == n
    decreases width
  {
    if width > 0 {
      PadReads(n / 10, width - 1);
      assert Pad(n, width)[..width - 1] == Pad(n / 10, width - 1);
    }
  }

  /** Thirteen decimal digits of milliseconds, a dash, and six of the counter. */
  lemma IdReads(ms: nat, counter: nat)
    requires ms < 10_000_000_000_000 && counter < 1_000_000
    ensures var id := EventId(ms, counter);
            && |id| == 20 && id[13] == '-' && (forall i | 0 <= i < 20 && i != 13 :: '0' <= id[i] <= '9')
            && Decimal(id[..13]) == ms && Decimal(id[14..]) == counter
  {
    Widths();
    var id, a, b := EventId(ms, counter), Pad(ms, MS_DIGITS), Pad(counter, COUNTER_DIGITS);
    assert id[..13] == a && id[14..] == b;
    PadReads(ms, MS_DIGITS);
    PadReads(counter, COUNTER_DIGITS);
    forall i | 0 <= i < 20 && i != 13 ensures '0' <= id[i] <= '9' {
      assert id[i] == if i < 13 then a[i] else b[i - 14];
    }
  }

  const MIN_EVENT_ID := "0"

  /** The string order of ids is the numeric order of (ms, counter), both ways. */
  lemma IdOrder(ms: nat, counter: nat, ms': nat, counter': nat)
    requires ms < 10_000_000_000_000 && ms' < 10_000_000_000_000
    requires counter < 1_000_000 && counter' < 1_000_000
    ensures Less(EventId(ms, counter), EventId(ms', counter'))
       <==> ms < ms' || (ms == ms' && counter < counter')
    ensures EventId(ms, counter) == EventId(ms', counter') <==> ms == ms' && counter == counter'
  {
    Widths();
    PadOrder(ms, ms', MS_DIGITS);
    PadOrder(counter, counter', COUNTER_DIGITS);
    var a, b := Pad(ms, MS_DIGITS), Pad(ms', MS_DIGITS);
    var x, y := Pad(counter, COUNTER_DIGITS), Pad(counter', COUNTER_DIGITS);
    assert |a + "-"| == |b + "-"|;
    LessAppend(a, "-", b, "-");
    LessAsymmetric("-", "-");
    assert a + "-" == b + "-" ==> a == b by {
      assert (a + "-")[..|a|] == a && (b + "-")[..|b|] == b;
    }
    LessAppend(a + "-", x, b + "-", y);
    assert EventId(ms, counter)[..|a|] == a && EventId(ms', counter')[..|b|] == b;
    assert EventId(ms, counter)[|a| + 1..] == x && EventId(ms', counter')[|b| + 1..] == y;
  }

  /** The cursor '0' lies strictly below every id, so draining from it skips nothing. */
  lemma MinCursorBelowAll(ms: nat, counter: nat)
    ensures MIN_EVENT_ID == "0" && Less("0", EventId(ms, counter))
  {
    var id := EventId(ms, counter);
    assert id[0] == Pad(ms, MS_DIGITS)[0];
    assert MIN_EVENT_ID[1..] == [] && id[1..] != [];
  }
}
