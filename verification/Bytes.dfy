// Bytes and the small numbers they stand for.

module Bytes {
  type Byte = bv8

  // The byte after counting up to `n` from 0.
  function ByteOf(n: nat): Byte
    requires n < 256
  {
    if n == 0 then 0 else ByteOf(n - 1) + 1
  }

  function NumberOf(b: Byte): nat {
    b as int
  }

  lemma NextNumber(b: Byte)
    ensures NumberOf(b) < 256 && (b != 255 ==> NumberOf(b + 1) == NumberOf(b) + 1) && (NumberOf(b) == 255 ==> b == 255)
  {
  }

  lemma {:induction false} ByteRoundTrip(n: nat)
    requires n < 256
    ensures NumberOf(ByteOf(n)) == n
  {
    if n != 0 {
      hide NumberOf;
      ByteRoundTrip(n - 1);
      NextNumber(ByteOf(n - 1));
    } else {
      assert (0 as bv8) as int == 0;
    }
  }

  lemma SameNumber(a: Byte, b: Byte)
    requires NumberOf(a) == NumberOf(b)
    ensures a == b
  {
    assert (a as int) as bv8 == a && (b as int) as bv8 == b;
  }

  lemma NumberRoundTrip(b: Byte)
    ensures NumberOf(b) < 256 && ByteOf(NumberOf(b)) == b
  {
    hide NumberOf, ByteOf;
    NextNumber(b);
    ByteRoundTrip(NumberOf(b));
    SameNumber(ByteOf(NumberOf(b)), b);
  }
}
