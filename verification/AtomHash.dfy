/** The hash of atoms in src/types/object.c, and the table it drives into a corner. */
module AtomHash {
  import opened Base
  import opened ObjectTable
  import opened ProbeTable

  /** `hash_u32`. */
  function HashU32(x: bv32): bv32 {
    var x1 := x ^ (x >> 16);
    var x2 := x1 * 0x7feb352d;
    var x3 := x2 ^ (x2 >> 15);
    var x4 := x3 * 0x846ca68b;
    x4 ^ (x4 >> 16)
  }

  /** Some values of the hash. */
  lemma HashValues()
    ensures HashU32(1) == 0x688990C0 && HashU32(2) == 0xD1132181 && HashU32(0xFFFF_FFFF) == 0x6768824A
  {
  }

  function AtomHashOf(k: nat): nat {
    HashU32((k % U32) as bv32) as nat
  }

  /** Eight atoms whose home slots in a table of eight are all different. */
  const SPREAD: seq<nat> := [0, 2, 8, 6, 12, 3, 5, 15]

  lemma HomeOf(k: nat, x: bv32, j: nat)
    requires k < U32 && k as bv32 == x && HashU32(x) as nat % 8 == j
    ensures Home(AtomHashOf, k, 8) == j
  {
    hide HashU32;
  }

  lemma Atom0()
    ensures Home(AtomHashOf, 0, 8) == 0
  {
    assert HashU32(0) as nat % 8 == 0;
    HomeOf(0, 0, 0);
  }

  lemma Atom2()
    ensures Home(AtomHashOf, 2, 8) == 1
  {
    assert HashU32(2) as nat % 8 == 1;
    HomeOf(2, 2, 1);
  }

  lemma Atom8()
    ensures Home(AtomHashOf, 8, 8) == 2
  {
    assert HashU32(8) as nat % 8 == 2;
    HomeOf(8, 8, 2);
  }

  lemma Atom6()
    ensures Home(AtomHashOf, 6, 8) == 3
  {
    assert HashU32(6) as nat % 8 == 3;
    HomeOf(6, 6, 3);
  }

  lemma Atom12()
    ensures Home(AtomHashOf, 12, 8) == 4
  {
    assert HashU32(12) as nat % 8 == 4;
    HomeOf(12, 12, 4);
  }

  lemma Atom3()
    ensures Home(AtomHashOf, 3, 8) == 5
  {
    assert HashU32(3) as nat % 8 == 5;
    HomeOf(3, 3, 5);
  }

  lemma Atom5()
    ensures Home(AtomHashOf, 5, 8) == 6
  {
    assert HashU32(5) as nat % 8 == 6;
    HomeOf(5, 5, 6);
  }

  lemma Atom15()
    ensures Home(AtomHashOf, 15, 8) == 7
  {
    assert HashU32(15) as nat % 8 == 7;
    HomeOf(15, 15, 7);
  }

  lemma SpreadFillsTable(j: nat)
    requires j < 8
    ensures Home(AtomHashOf, SPREAD[j], 8) == j
  {
    hide Home, AtomHashOf;
    Atom0();
    Atom2();
    Atom8();
    Atom6();
    Atom12();
    Atom3();
    Atom5();
    Atom15();
  }

  /** With the hash in use: adding and removing these eight atoms and adding one of them again leaves an
      object on which every further insertion, removal or failing search by probing hangs. */
  method ProbeHangs() returns (o: Object)
    ensures o.Valid() && o.Model() == map[0 := Null]
    ensures forall k :: k != 0 ==> !ProbeEnds(o.hash, o.keys[..], o.states[..], k)
  {
    hide HashU32, Home;
    forall j | 0 <= j < 8 ensures Home(AtomHashOf, SPREAD[j], 8) == j {
      SpreadFillsTable(j);
    }
    o := FillWithTombs(AtomHashOf, SPREAD);
  }
}
