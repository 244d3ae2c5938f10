/** Strings in code-point order, and fixed-width decimal fields. */
module Text {
  import opened Arithmetic

  /** Python's `<` on strings. */
  predicate Before(a: string, b: string) {
    if b == "" then false
    else if a == "" then true
    else if a[0] != b[0] then a[0] < b[0]
    else Before(a[1..], b[1..])
  }

  lemma {:induction false} BeforeIsStrict(a: string)
    ensures !Before(a, a)
  {
    if a != "" {
      BeforeIsStrict(a[1..]);
    }
  }

  lemma {:induction false} BeforeIsTotal(a: string, b: string)
    ensures a == b || Before(a, b) || Before(b, a)
    ensures !(Before(a, b) && Before(b, a))
  {
    if a != "" && b != "" && a[0] == b[0] {
      BeforeIsTotal(a[1..], b[1..]);
      assert a == [a[0]] + a[1..] && b == [b[0]] + b[1..];
    }
  }

  lemma {:induction false} BeforeIsTransitive(a: string, b: string, c: string)
    requires Before(a, b) && Before(b, c)
    ensures Before(a, c)
  {
    if a != "" && a[0] == b[0] == c[0] {
      BeforeIsTransitive(a[1..], b[1..], c[1..]);
    }
  }

  /** After equally long heads, the heads decide unless they are equal. */
  lemma {:induction false} BeforeOfConcat(a: string, x: string, b: string, y: string)
    requires |a| == |b|
    ensures Before(a + x, b + y) <==> Before(a, b) || (a == b && Before(x, y))
  {
    if a == "" {
      assert a + x == x && b + y == y;
      BeforeIsStrict(a);
    } else {
      assert (a + x)[1..] == a[1..] + x && (b + y)[1..] == b[1..] + y;
      BeforeOfConcat(a[1..], x, b[1..], y);
      assert a == [a[0]] + a[1..] && b == [b[0]] + b[1..];
    }
  }

  predicate StartsWith(s: string, head: string) {
    |head| <= |s| && s[..|head|] == head
  }

  predicate EndsWith(s: string, tail: string) {
    |tail| <= |s| && s[|s| - |tail|..] == tail
  }

  /** What follows the last separator; the whole text without one. */
  function AfterLast(s: string, sep: char): string {
    if s == "" || s[|s| - 1] == sep then "" else AfterLast(s[..|s| - 1], sep) + [s[|s| - 1]]
  }

  lemma {:induction false} AfterLastOfConcat(head: string, name: string, sep: char)
    requires sep !in name && (head != "" ==> head[|head| - 1] == sep)
    ensures AfterLast(head + name, sep) == name
  {
    if name == "" {
      assert head + name == head;
    } else {
      var front := name[..|name| - 1];
      assert (head + name)[..|head + name| - 1] == head + front;
      AfterLastOfConcat(head, front, sep);
      assert name == front + [name[|name| - 1]];
    }
  }

  predicate FoundAt(text: string, part: string, i: int) {
    0 <= i <= |text| - |part| && text[i..i + |part|] == part
  }

  /** Python's `part in text`. */
  predicate Contains(text: string, part: string) {
    exists i :: 0 <= i <= |text| && FoundAt(text, part, i)
  }

  // --------------------------------------------------------------------- digits

  predicate IsDigit(c: char) {
    '0' <= c <= '9'
  }

  predicate AllDigits(s: string) {
    forall i :: 0 <= i < |s| ==> IsDigit(s[i])
  }

  function DigitChar(d: nat): (c: char)
    requires d < 10
    ensures IsDigit(c) && DigitValue(c) == d
  {
    '0' + d as char
  }

  function DigitValue(c: char): (d: nat)
    requires IsDigit(c)
    ensures d < 10 && (c == '0' + d as char)
  {
    c as int - '0' as int
  }

  function Pow10(width: nat): (p: nat)
    ensures p >= 1
  {
    if width == 0 then 1 else 10 * Pow10(width - 1)
  }

  lemma SmallPowers()
    ensures Pow10(2) == 100 && Pow10(3) == 1000 && Pow10(4) == 10000
  {
    assert Pow10(2) == 10 * Pow10(1) == 100;
  }

  /** `n` in decimal, zero-padded to `width`; exact when n < 10^width. */
  function Digits(n: nat, width: nat): (s: string)
    ensures |s| == width
    ensures AllDigits(s)
  {
    if width == 0 then "" else Digits(n / 10, width - 1) + [DigitChar(n % 10)]
  }

  function Value(s: string): nat
    requires AllDigits(s)
  {
    if s == "" then 0 else 10 * Value(s[..|s| - 1]) + DigitValue(s[|s| - 1])
  }

  lemma {:induction false} ValueOfDigits(n: nat, width: nat)
    requires n < Pow10(width)
    ensures Value(Digits(n, width)) == n
  {
    if width > 0 {
      var s := Digits(n, width);
      assert s[..width - 1] == Digits(n / 10, width - 1);
      ValueOfDigits(n / 10, width - 1);
    }
  }

  lemma {:induction false} DigitsOfValue(s: string)
    requires AllDigits(s)
    ensures Value(s) < Pow10(|s|)
    ensures Digits(Value(s), |s|) == s
  {
    if s != "" {
      var head := s[..|s| - 1];
      var d := DigitValue(s[|s| - 1]);
      DigitsOfValue(head);
      assert Value(s) == 10 * Value(head) + d;
      DivModOf(Value(s), Value(head), d, 10);
      assert s == head + [s[|s| - 1]];
    }
  }

  lemma DigitsAreFaithful(m: nat, n: nat, width: nat)
    requires m < Pow10(width) && n < Pow10(width)
    ensures Digits(m, width) == Digits(n, width) <==> m == n
  {
    ValueOfDigits(m, width);
    ValueOfDigits(n, width);
  }

  /** Equally wide fields compare as the numbers they show. */
  lemma {:induction false} DigitsOrder(m: nat, n: nat, width: nat)
    requires m < Pow10(width) && n < Pow10(width)
    ensures Before(Digits(m, width), Digits(n, width)) <==> m < n
  {
    if width > 0 {
      DigitsOrder(m / 10, n / 10, width - 1);
      DigitsAreFaithful(m / 10, n / 10, width - 1);
      BeforeOfConcat(Digits(m / 10, width - 1), [DigitChar(m % 10)], Digits(n / 10, width - 1), [DigitChar(n % 10)]);
      LastDigitOrder(m % 10, n % 10);
    }
  }

  lemma LastDigitOrder(x: nat, y: nat)
    requires x < 10 && y < 10
    ensures Before([DigitChar(x)], [DigitChar(y)]) <==> x < y
  {
  }

  // ---------------------------------------------------------------- field records

  datatype Slot = Slot(width: nat, after: string)

  /** Zero-padded fields, each followed by its separator, then `tail`. */
  function Render(values: seq<nat>, layout: seq<Slot>, tail: string): string
    requires |values| == |layout|
  {
    if values == [] then
      tail
    else
      Digits(values[0], layout[0].width) + (layout[0].after + Render(values[1..], layout[1..], tail))
  }

  /** The first field, its separator, and the rest. */
  lemma RenderFirst(v: seq<nat>, layout: seq<Slot>, tail: string)
    requires |v| == |layout| > 0
    ensures Render(v, layout, tail)
         == Digits(v[0], layout[0].width) + (layout[0].after + Render(v[1..], layout[1..], tail))
  {
  }

  ghost predicate Fits(values: seq<nat>, layout: seq<Slot>) {
    |values| == |layout| && forall i :: 0 <= i < |values| ==> values[i] < Pow10(layout[i].width)
  }

  /** The first differing component decides. */
  predicate Precedes(a: seq<nat>, b: seq<nat>)
    requires |a| == |b|
  {
    a != [] && (a[0] < b[0] || (a[0] == b[0] && Precedes(a[1..], b[1..])))
  }

  /** One field and its separator in front of two strings. */
  lemma FieldOrder(m: nat, n: nat, slot: Slot, x: string, y: string)
    requires m < Pow10(slot.width) && n < Pow10(slot.width)
    ensures Before(Digits(m, slot.width) + (slot.after + x), Digits(n, slot.width) + (slot.after + y))
            <==> m < n || (m == n && Before(x, y))
  {
    DigitsOrder(m, n, slot.width);
    DigitsAreFaithful(m, n, slot.width);
    BeforeOfConcat(Digits(m, slot.width), slot.after + x, Digits(n, slot.width), slot.after + y);
    BeforeOfConcat(slot.after, x, slot.after, y);
    BeforeIsStrict(slot.after);
  }

  /** Records of one layout sort by their fields and then by their tails. */
  lemma {:induction false} RenderOrder(a: seq<nat>, b: seq<nat>, layout: seq<Slot>, x: string, y: string)
    requires Fits(a, layout) && Fits(b, layout)
    ensures Before(Render(a, layout, x), Render(b, layout, y)) <==> Precedes(a, b) || (a == b && Before(x, y))
  {
    if a != [] {
      RenderOrder(a[1..], b[1..], layout[1..], x, y);
      FieldOrder(a[0], b[0], layout[0], Render(a[1..], layout[1..], x), Render(b[1..], layout[1..], y));
      assert a == b <==> a[0] == b[0] && a[1..] == b[1..] by {
        assert a == [a[0]] + a[1..] && b == [b[0]] + b[1..];
      }
    }
  }
}
