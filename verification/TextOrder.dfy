/** JavaScript strings: their length in UTF-16 code units and their order by them. */
module TextOrder {

  /** The length of a string. */
  function Units(s: string): nat {
    if s == [] then 0 else Units(s[..|s| - 1]) + if s[|s| - 1] < '\U{10000}' then 1 else 2
  }

  /** Where a character sorts among others. */
  function Weight(c: char): nat {
    var n := c as int;
    if n < 0x10000 then n * 0x10000
    else (0xD800 + (n - 0x10000) / 0x400) * 0x10000 + 0xDC00 + (n - 0x10000) % 0x400
  }

  predicate TextLeq(a: string, b: string) {
    || a == []
    || (b != [] && (Weight(a[0]) < Weight(b[0]) || (Weight(a[0]) == Weight(b[0]) && TextLeq(a[1..], b[1..]))))
  }

  lemma {:induction false} TextOrderIsTotal(a: string, b: string)
    ensures TextLeq(a, b) || TextLeq(b, a)
  {
    hide Weight;
    if a != [] && b != [] {
      TextOrderIsTotal(a[1..], b[1..]);
    }
  }

  lemma {:induction false} TextOrderIsTransitive(a: string, b: string, c: string)
    requires TextLeq(a, b) && TextLeq(b, c)
    ensures TextLeq(a, c)
  {
    hide Weight;
    if a != [] && Weight(a[0]) == Weight(b[0]) == Weight(c[0]) {
      TextOrderIsTransitive(a[1..], b[1..], c[1..]);
    }
  }

  predicate TextLess(a: string, b: string) {
    !TextLeq(b, a)
  }

  lemma {:induction false} TextsAreTransitive(x: string, y: string, z: string)
    ensures TextLeq(x, y) && TextLeq(y, z) ==> TextLeq(x, z)
    ensures TextLess(x, y) && TextLeq(y, z) ==> TextLess(x, z)
    ensures TextLeq(x, y) && TextLess(y, z) ==> TextLess(x, z)
    ensures TextLess(x, y) ==> TextLeq(x, y)
  {
    hide TextLeq;
    TextOrderIsTotal(x, y);
    TextOrderIsTotal(y, z);
    TextOrderIsTotal(x, z);
    if TextLeq(x, y) && TextLeq(y, z) {
      TextOrderIsTransitive(x, y, z);
    }
    if TextLeq(z, x) && TextLeq(x, y) {
      TextOrderIsTransitive(z, x, y);
    }
    if TextLeq(y, z) && TextLeq(z, x) {
      TextOrderIsTransitive(y, z, x);
    }
  }

  lemma {:induction false} WeightIsInjective(c: char, d: char)
    requires Weight(c) == Weight(d)
    ensures c == d
  {
  }

  lemma {:induction false} TextOrderIsAntisymmetric(a: string, b: string)
    requires TextLeq(a, b) && TextLeq(b, a)
    ensures a == b
  {
    hide Weight;
    if a != [] && b != [] {
      WeightIsInjective(a[0], b[0]);
      TextOrderIsAntisymmetric(a[1..], b[1..]);
      assert a == [a[0]] + a[1..] && b == [b[0]] + b[1..];
    }
  }
}
