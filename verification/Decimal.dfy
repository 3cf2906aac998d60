/** Zero-padded decimal numbers and the byte-wise string order they are compared with. */
module Decimal {

  predicate IsDigit(c: char) {
    '0' <= c <= '9'
  }

  function Digit(n: nat): (c: char)
    requires n < 10
    ensures IsDigit(c) && DigitValue(c) == n
  {
    ('0' as int + n) as char
  }

  function DigitValue(c: char): nat
    requires IsDigit(c)
  {
    c as int - '0' as int
  }

  function Pow10(w: nat): (p: nat)
    ensures p >= 1
  {
    if w == 0 then 1 else 10 * Pow10(w - 1)
  }

  /** At least `width` digits, as many as needed, and at least one. */
  function Pad(n: nat, width: nat): (s: string)
    ensures |s| >= 1 && forall c :: c in s ==> IsDigit(c)
    decreases n + width
  {
    if n < 10 && width <= 1 then [Digit(n)]
    else Pad(n / 10, if width == 0 then 0 else width - 1) + [Digit(n % 10)]
  }

  /** The value of a string of digits. */
  function Value(s: string): nat
    requires forall c :: c in s ==> IsDigit(c)
  {
    if s == [] then 0 else 10 * Value(s[..|s| - 1]) + DigitValue(s[|s| - 1])
  }

  lemma {:induction false} ValueOfPad(n: nat, width: nat)
    ensures Value(Pad(n, width)) == n
    decreases n + width
  {
    if n < 10 && width <= 1 {
      assert Pad(n, width)[..0] == [];
    } else {
      var w := if width == 0 then 0 else width - 1;
      ValueOfPad(n / 10, w);
      assert Pad(n, width)[..|Pad(n, width)| - 1] == Pad(n / 10, w);
    }
  }

  lemma {:induction false} PadWidth(n: nat, width: nat)
    requires width >= 1 && n < Pow10(width)
    ensures |Pad(n, width)| == width
    decreases width
  {
    if width > 1 {
      PadWidth(n / 10, width - 1);
    }
  }

  /** The order of two strings character by character, as the database and Go compare them. */
  predicate Less(a: string, b: string) {
    if b == [] then false
    else if a == [] then true
    else a[0] < b[0] || (a[0] == b[0] && Less(a[1..], b[1..]))
  }

  /** Strings that begin with equally long parts compare by those parts first. */
  lemma {:induction false} LessOfConcat(a: string, b: string, c: string, d: string)
    requires |a| == |b|
    ensures Less(a + c, b + d) <==> Less(a, b) || (a == b && Less(c, d))
    decreases |a|
  {
    if a == [] {
      assert a + c == c && b + d == d;
    } else {
      assert (a + c)[1..] == a[1..] + c && (b + d)[1..] == b[1..] + d;
      LessOfConcat(a[1..], b[1..], c, d);
      assert a == [a[0]] + a[1..] && b == [b[0]] + b[1..];
    }
  }

  /** Numbers written with the same width compare as strings the way they compare as numbers. */
  lemma {:induction false} PadKeepsOrder(m: nat, n: nat, width: nat)
    requires width >= 1 && m < Pow10(width) && n < Pow10(width)
    ensures Less(Pad(m, width), Pad(n, width)) <==> m < n
    decreases width
  {
    if width > 1 {
      var w := width - 1;
      PadWidth(m / 10, w);
      PadWidth(n / 10, w);
      PadKeepsOrder(m / 10, n / 10, w);
      ValueOfPad(m / 10, w);
      ValueOfPad(n / 10, w);
      LessOfConcat(Pad(m / 10, w), Pad(n / 10, w), [Digit(m % 10)], [Digit(n % 10)]);
      DigitsCompare(m % 10, n % 10);
    } else {
      DigitsCompare(m, n);
    }
  }

  lemma DigitsCompare(m: nat, n: nat)
    requires m < 10 && n < 10
    ensures Less([Digit(m)], [Digit(n)]) <==> m < n
  {
  }

  // ---- fixed-width records -----------------------------------------------------------------------------

  /** The numbers of a record in a layout: for each the width to pad to, and what to write after it. */
  function Render(values: seq<nat>, layout: seq<(nat, string)>): string
    requires |values| == |layout|
  {
    if values == [] then ""
    else Pad(values[0], layout[0].0) + (layout[0].1 + Render(values[1..], layout[1..]))
  }

  /** Each number fits its width. */
  predicate Fits(values: seq<nat>, layout: seq<(nat, string)>) {
    |values| == |layout| && forall i :: 0 <= i < |values| ==> layout[i].0 >= 1 && values[i] < Pow10(layout[i].0)
  }

  /** Where field `k` begins. */
  function Offset(layout: seq<(nat, string)>, k: nat): nat
    requires k <= |layout|
  {
    if k == 0 then 0 else Offset(layout, k - 1) + layout[k - 1].0 + |layout[k - 1].1|
  }

  lemma OffsetOfNext(layout: seq<(nat, string)>, k: nat)
    requires k < |layout|
    ensures Offset(layout, k + 1) == Offset(layout, k) + layout[k].0 + |layout[k].1|
  {
  }

  lemma {:induction false} OffsetOfRest(layout: seq<(nat, string)>, k: nat)
    requires 1 <= k <= |layout|
    ensures Offset(layout, k) == layout[0].0 + |layout[0].1| + Offset(layout[1..], k - 1)
  {
    if k > 1 {
      OffsetOfRest(layout, k - 1);
    } else {
      assert Offset(layout, 0) == 0 == Offset(layout[1..], 0);
    }
  }

  /** The text is digits and their value is the number. */
  predicate IsNumeral(s: string, n: nat) {
    (forall c :: c in s ==> IsDigit(c)) && Value(s) == n
  }

  lemma {:induction false} RestFits(values: seq<nat>, layout: seq<(nat, string)>)
    requires Fits(values, layout)
    ensures |Render(values, layout)| == Offset(layout, |layout|)
    decreases |values|
  {
    if values != [] {
      PadWidth(values[0], layout[0].0);
      RestFits(values[1..], layout[1..]);
      OffsetOfRest(layout, |layout|);
    }
  }

  /** At this place the text has the number, `w` characters wide, and then the separator. */
  predicate FieldAt(s: string, from: nat, w: nat, sep: string, n: nat) {
    from + w + |sep| <= |s| && IsNumeral(s[from..from + w], n) && s[from + w..from + w + |sep|] == sep
  }

  lemma FieldInFront(first: string, sep: string, rest: string, n: nat)
    requires IsNumeral(first, n)
    ensures FieldAt(first + (sep + rest), 0, |first|, sep, n)
  {
    var s := first + (sep + rest);
    assert s[0..0 + |first|] == first && s[0 + |first|..0 + |first| + |sep|] == sep;
  }

  lemma FieldBehind(front: string, rest: string, from: nat, w: nat, sep: string, n: nat)
    requires FieldAt(rest, from, w, sep, n)
    ensures FieldAt(front + rest, |front| + from, w, sep, n)
  {
    var (s, at) := (front + rest, |front| + from);
    assert s[at..at + w] == rest[from..from + w];
    assert s[at + w..at + w + |sep|] == rest[from + w..from + w + |sep|];
  }

  lemma FitsOn(values: seq<nat>, layout: seq<(nat, string)>)
    requires Fits(values, layout) && values != []
    ensures Fits(values[1..], layout[1..])
  {
  }

  /** Every field of a record that fits reads back from its place, and is followed by its separator. */
  lemma {:induction false} ValuesReadBack(values: seq<nat>, layout: seq<(nat, string)>, k: nat)
    requires Fits(values, layout) && k < |values|
    ensures FieldAt(Render(values, layout), Offset(layout, k), layout[k].0, layout[k].1, values[k])
    decreases |values|
  {
    var (first, sep, rest) := (Pad(values[0], layout[0].0), layout[0].1, Render(values[1..], layout[1..]));
    PadWidth(values[0], layout[0].0);
    assert Render(values, layout) == first + (sep + rest);
    if k == 0 {
      ValueOfPad(values[0], layout[0].0);
      FieldInFront(first, sep, rest, values[0]);
    } else {
      OffsetOfRest(layout, k);
      FitsOn(values, layout);
      ValuesReadBack(values[1..], layout[1..], k - 1);
      FieldBehind(first + sep, rest, Offset(layout[1..], k - 1), layout[k].0, layout[k].1, values[k]);
      assert first + sep + rest == first + (sep + rest);
    }
  }

  /** The first field that differs decides. */
  predicate FirstLess(a: seq<nat>, b: seq<nat>)
    requires |a| == |b|
  {
    a != [] && (a[0] < b[0] || (a[0] == b[0] && FirstLess(a[1..], b[1..])))
  }

  /** Two records in one layout compare as strings the way their numbers compare, first field first. */
  lemma {:induction false} RenderKeepsOrder(a: seq<nat>, b: seq<nat>, layout: seq<(nat, string)>)
    requires Fits(a, layout) && Fits(b, layout)
    ensures Less(Render(a, layout), Render(b, layout)) <==> FirstLess(a, b)
    ensures Render(a, layout) == Render(b, layout) <==> a == b
    decreases |a|
  {
    if a != [] {
      var w, sep := layout[0].0, layout[0].1;
      var restA, restB := Render(a[1..], layout[1..]), Render(b[1..], layout[1..]);
      RenderKeepsOrder(a[1..], b[1..], layout[1..]);
      LessOfConcat(sep, sep, restA, restB);
      LessIsIrreflexive(sep);
      FieldFirst(a[0], b[0], w, sep + restA, sep + restB);
      if Render(a, layout) == Render(b, layout) {
        assert (sep + restA)[|sep|..] == restA && (sep + restB)[|sep|..] == restB;
        assert a == [a[0]] + a[1..] && b == [b[0]] + b[1..];
      }
    }
  }

  lemma {:induction false} LessIsIrreflexive(a: string)
    ensures !Less(a, a)
  {
    if a != [] {
      LessIsIrreflexive(a[1..]);
    }
  }

  lemma FieldFirst(m: nat, n: nat, width: nat, c: string, d: string)
    requires width >= 1 && m < Pow10(width) && n < Pow10(width)
    ensures Less(Pad(m, width) + c, Pad(n, width) + d) <==> m < n || (m == n && Less(c, d))
    ensures Pad(m, width) + c == Pad(n, width) + d ==> m == n && c == d
  {
    PadWidth(m, width);
    PadWidth(n, width);
    PadKeepsOrder(m, n, width);
    LessOfConcat(Pad(m, width), Pad(n, width), c, d);
    ValueOfPad(m, width);
    ValueOfPad(n, width);
    if Pad(m, width) + c == Pad(n, width) + d {
      assert (Pad(m, width) + c)[..width] == Pad(m, width) && (Pad(n, width) + d)[..width] == Pad(n, width);
      assert (Pad(m, width) + c)[width..] == c && (Pad(n, width) + d)[width..] == d;
    }
  }
}
