/** Byte strings in lexicographic order, a proper prefix coming first, embed in
    the real numbers, so an index that only compares keys may be modelled over reals. */
module KeyOrder {

  newtype Byte = x: int | 0 <= x < 256

  predicate Less(s: seq<Byte>, t: seq<Byte>)
  {
    if t == [] then false
    else if s == [] then true
    else s[0] < t[0] || (s[0] == t[0] && Less(s[1..], t[1..]))
  }

  /** The string as a fraction in base 257; digit 0 marks the end. */
  function Embed(s: seq<Byte>): (r: real)
    ensures 0.0 <= r < 1.0
    ensures s != [] ==> r >= 1.0 / 257.0
  {
    if s == [] then 0.0 else (s[0] as real + 1.0 + Embed(s[1..])) / 257.0
  }

  lemma {:induction false} EmbedKeepsOrder(s: seq<Byte>, t: seq<Byte>)
    ensures Less(s, t) <==> Embed(s) < Embed(t)
    ensures s == t <==> Embed(s) == Embed(t)
  {
    if s != [] && t != [] {
      EmbedKeepsOrder(s[1..], t[1..]);
      var a, b := s[0] as real + 1.0 + Embed(s[1..]), t[0] as real + 1.0 + Embed(t[1..]);
      assert Embed(s) < Embed(t) <==> a < b;
      if s[0] < t[0] {
        assert (s[0] as int) + 1 <= t[0] as int;
      } else if s[0] > t[0] {
        assert (t[0] as int) + 1 <= s[0] as int;
      } else {
        assert s == [s[0]] + s[1..] && t == [t[0]] + t[1..];
      }
    }
  }
}
