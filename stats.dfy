/**
 * The generic counter table of stats.go: counter kinds mapped to unsigned
 * 64-bit totals, allocated on first use.
 */
module GenericStats {
  import opened Wrappers

  const Modulus: int := 0x1_0000_0000_0000_0000

  /** Go's `uint64`. */
  newtype uint64 = x: int | 0 <= x < 0x1_0000_0000_0000_0000

  /** `a + b` on `uint64`: the sum taken modulo 2^64. */
  function Add(a: uint64, b: uint64): (r: uint64)
    ensures r as int == (a as int + b as int) % Modulus
    ensures a as int + b as int < Modulus ==> r as int == a as int + b as int
    ensures a as int + b as int >= Modulus ==> r as int == a as int + b as int - Modulus
  {
    if a as int + b as int < Modulus then a + b else (a as int + b as int - Modulus) as uint64
  }

  /** The largest total wraps round to zero when one more is added. */
  lemma AddWraps()
    ensures Add((Modulus - 1) as uint64, 1) == 0
  {
  }

  /** `Stats`: the map `v`, `nil` (`None`) until the first `Count`. */
  class Stats {
    var v: Option<map<int, uint64>>

    constructor()
      ensures v == None
    {
      v := None;
    }

    /** The total of kind `t`: 0 for a `nil` map and for a kind never counted. */
    function Value(t: int): uint64
      reads this
    {
      if v.Some? && t in v.value then v.value[t] else 0
    }

    /** `Count`: allocates the map if needed, adds `i` to kind `t` and returns the new total. */
    method Count(t: int, i: uint64) returns (r: uint64)
      modifies this
      ensures r == Add(old(Value(t)), i)
      ensures v.Some? && t in v.value && v.value[t] == r
      ensures Value(t) == r
      ensures forall u :: u != t ==> Value(u) == old(Value(u))
      ensures v.value.Keys == (if old(v).Some? then old(v).value.Keys else {}) + {t}
    {
      if v.None? {
        v := Some(map[]);
      }
      var m := v.value;
      if t !in m {
        m := m[t := 0];
      }
      m := m[t := Add(m[t], i)];
      v := Some(m);
      r := m[t];
    }

    /** `Get`: the total of kind `t`, without changing anything. */
    method Get(t: int) returns (r: uint64)
      ensures r == Value(t)
      ensures v.None? ==> r == 0
      ensures v.Some? && t !in v.value ==> r == 0
    {
      if v.None? {
        return 0;
      }
      r := if t in v.value then v.value[t] else 0;
    }
  }

  /** A fresh table reads as all zeros. */
  lemma FreshIsZero(s: Stats)
    requires s.v.None?
    ensures forall t :: s.Value(t) == 0
  {
  }

  /** Reading a total right after counting it gives the total that `Count` returned. */
  method CountThenGet(s: Stats, t: int, i: uint64) returns (counted: uint64, read: uint64)
    modifies s
    ensures counted == read
    ensures counted == Add(old(s.Value(t)), i)
  {
    counted := s.Count(t, i);
    read := s.Get(t);
  }

  /** Counting from a fresh table, twice: the second total is the sum of both increments. */
  method CountTwice(t: int, i: uint64, j: uint64) returns (total: uint64)
    ensures total == Add(Add(0, i), j)
  {
    var s := new Stats();
    var first := s.Count(t, i);
    total := s.Count(t, j);
  }
}
