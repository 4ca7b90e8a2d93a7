/** Indexing a picture's colours through an open-addressing hash of 1024 slots. */
module ShotPalette {
  import opened Congruence
  import opened LittleEndian
  import opened ShotImage

  const SLOTS := 1024
  const MAX_COLOURS := 256

  function Key(c: Rgb): (k: u32)
    ensures k < 0x100_0000
  {
    c.r * 0x1_0000 + c.g * 0x100 + c.b
  }

  /** The 32-bit product's top ten bits. */
  function Hash(key: u32): (h: nat)
    ensures h < SLOTS
  {
    (key * 2654435761) % 0x1_0000_0000 / 0x40_0000
  }

  lemma KeyInjective(a: Rgb, b: Rgb)
    ensures Key(a) == Key(b) ==> a == b
  {
    DivideBy(Key(a), a.g * 0x100 + a.b, a.r, 0x1_0000);
    DivideBy(Key(b), b.g * 0x100 + b.b, b.r, 0x1_0000);
    DivideBy(a.g * 0x100 + a.b, a.b, a.g, 0x100);
    DivideBy(b.g * 0x100 + b.b, b.b, b.g, 0x100);
  }

  function Slot(h: nat, n: nat): (t: nat)
    ensures t < SLOTS
  {
    (h + n) % SLOTS
  }

  /**
    The linear-probing invariant: pal lists the colours in order of arrival, colour c sits in slot
    slots[c], steps[c] places from its hash, with no empty slot on the way.
   */
  ghost predicate Table(keys: seq<u32>, values: seq<u8>, pal: seq<Rgb>, slots: seq<nat>, steps: seq<nat>) {
    && |keys| == |values| == SLOTS && |pal| == |slots| == |steps| <= MAX_COLOURS
    && (forall c :: 0 <= c < |pal| ==> Resident(keys, values, pal, slots, steps, c))
    && (forall t :: 0 <= t < SLOTS && keys[t] != 0 ==> values[t] < |pal| && slots[values[t]] == t)
    && (forall i, j :: 0 <= i < j < |pal| ==> pal[i] != pal[j])
  }

  ghost predicate Resident(keys: seq<u32>, values: seq<u8>, pal: seq<Rgb>, slots: seq<nat>, steps: seq<nat>, c: nat)
    requires |keys| == |values| == SLOTS && c < |pal| == |slots| == |steps|
  {
    && slots[c] == Slot(Hash(Key(pal[c])), steps[c]) && values[slots[c]] == c
    && keys[slots[c]] == Key(pal[c]) + 1
    && forall n: nat :: n < steps[c] ==> keys[Slot(Hash(Key(pal[c])), n)] != 0
  }

  /** Fewer entries than numbers below n leave one of those numbers out. */
  lemma {:induction false} Pigeonhole(s: seq<nat>, n: nat) returns (t: nat)
    requires |s| < n
    ensures t < n && t !in s
  {
    if n - 1 !in s {
      t := n - 1;
    } else {
      var i :| 0 <= i < |s| && s[i] == n - 1;
      var rest := s[..i] + s[i + 1..];
      t := Pigeonhole(rest, n - 1);
      forall k | 0 <= k < |s|
        ensures s[k] != t
      {
        if k < i {
          assert rest[k] == s[k];
        } else if k > i {
          assert rest[k - 1] == s[k];
        }
      }
    }
  }

  /** An empty slot is always within reach of a probe. */
  lemma EmptyAhead(keys: seq<u32>, values: seq<u8>, pal: seq<Rgb>, slots: seq<nat>, steps: seq<nat>, h: nat)
    returns (n: nat)
    requires Table(keys, values, pal, slots, steps) && h < SLOTS
    ensures n < SLOTS && keys[Slot(h, n)] == 0
  {
    var t := Pigeonhole(slots, SLOTS);
    n := (t + SLOTS - h) % SLOTS;
    assert Slot(h, n) == t;
  }

  lemma TableSize(keys: seq<u32>, values: seq<u8>, pal: seq<Rgb>, slots: seq<nat>, steps: seq<nat>)
    requires Table(keys, values, pal, slots, steps)
    ensures |keys| == |values| == SLOTS && |pal| == |slots| == |steps| <= MAX_COLOURS
  {
  }

  /** A colour the table holds is met before the first empty slot. */
  lemma HeldIsFound(keys: seq<u32>, values: seq<u8>, pal: seq<Rgb>, slots: seq<nat>, steps: seq<nat>, c: Rgb, n: nat)
    requires Table(keys, values, pal, slots, steps) && c in pal
    requires keys[Slot(Hash(Key(c)), n)] == 0
    ensures exists m: nat :: m < n && keys[Slot(Hash(Key(c)), m)] == Key(c) + 1
  {
    var i :| 0 <= i < |pal| && pal[i] == c;
    assert Resident(keys, values, pal, slots, steps, i);
    assert steps[i] < n;
  }

  /** Storing a new colour in the empty slot its probe found keeps the invariant. */
  lemma InsertKeeps(keys: seq<u32>, values: seq<u8>, pal: seq<Rgb>, slots: seq<nat>, steps: seq<nat>, c: Rgb, n: nat)
    requires Table(keys, values, pal, slots, steps) && |pal| < MAX_COLOURS && c !in pal
    requires keys[Slot(Hash(Key(c)), n)] == 0
    requires forall m: nat :: m < n ==> keys[Slot(Hash(Key(c)), m)] != 0
    ensures var t := Slot(Hash(Key(c)), n);
            Table(keys[t := Key(c) + 1], values[t := |pal|], pal + [c], slots + [t], steps + [n])
  {
    var t := Slot(Hash(Key(c)), n);
    var keys', values' := keys[t := Key(c) + 1], values[t := |pal|];
    forall i | 0 <= i < |pal| + 1
      ensures Resident(keys', values', pal + [c], slots + [t], steps + [n], i)
    {
      if i < |pal| {
        assert Resident(keys, values, pal, slots, steps, i);
        assert slots[i] != t;
      }
    }
  }

  /** The palette bytes hold these colours, blue first. */
  ghost predicate PaletteHolds(s: seq<u8>, pal: seq<Rgb>) {
    && |s| == 4 * MAX_COLOURS && |pal| <= MAX_COLOURS
    && forall i: nat :: i < |pal| ==> EntryHolds(s, pal[i], i)
  }

  ghost predicate EntryHolds(s: seq<u8>, c: Rgb, i: nat)
    requires 4 * i + 4 <= |s|
  {
    s[4 * i] == c.b && s[4 * i + 1] == c.g && s[4 * i + 2] == c.r && s[4 * i + 3] == 0
  }

  lemma PaletteAppend(s: seq<u8>, t: seq<u8>, pal: seq<Rgb>, c: Rgb)
    requires PaletteHolds(s, pal) && |pal| < MAX_COLOURS && |t| == |s|
    requires forall k :: 0 <= k < 4 * |pal| ==> t[k] == s[k]
    requires EntryHolds(t, c, |pal|)
    ensures PaletteHolds(t, pal + [c])
  {
    forall i: nat | i < |pal| + 1
      ensures EntryHolds(t, (pal + [c])[i], i)
    {
      if i < |pal| {
        assert EntryHolds(s, pal[i], i);
      }
    }
  }

  lemma SlotStart(h: nat)
    requires h < SLOTS
    ensures Slot(h, 0) == h
  {
  }

  lemma SlotNext(h: nat, n: nat)
    ensures Slot(h, n + 1) == (Slot(h, n) + 1) % SLOTS
  {
  }

  lemma FoundIs(keys: seq<u32>, values: seq<u8>, pal: seq<Rgb>, slots: seq<nat>, steps: seq<nat>, c: Rgb, t: nat)
    requires Table(keys, values, pal, slots, steps) && t < SLOTS && keys[t] == Key(c) + 1
    ensures values[t] < |pal| && pal[values[t]] == c
  {
    assert Resident(keys, values, pal, slots, steps, values[t]);
    KeyInjective(pal[values[t]], c);
  }

  /** The work area: palette, hash keys and values, and an index per pixel. */
  class Work {
    const palette: array<u8>
    const keys: array<u32>
    const values: array<u8>
    const indices: array<u8>
    var colours: nat
    ghost var pal: seq<Rgb>
    ghost var slots: seq<nat>
    ghost var steps: seq<nat>

    constructor (pixels: nat)
      ensures Shape() && indices.Length == pixels
      ensures fresh(palette) && fresh(keys) && fresh(values) && fresh(indices)
    {
      palette := new u8[4 * MAX_COLOURS](i => 0);
      keys := new u32[SLOTS](i => 0);
      values := new u8[SLOTS](i => 0);
      indices := new u8[pixels](i => 0);
      colours := 0;
    }

    ghost predicate Shape() {
      && palette.Length == 4 * MAX_COLOURS && keys.Length == SLOTS && values.Length == SLOTS
      && palette != values && palette != indices && values != indices
    }

    ghost predicate Valid()
      reads this, palette, keys, values
    {
      && Shape() && colours == |pal| && Table(keys[..], values[..], pal, slots, steps)
      && PaletteHolds(palette[..], pal)
    }

    /** An empty table. */
    method Clear()
      requires Shape()
      modifies this, keys
      ensures Valid() && pal == []
    {
      for x := 0 to SLOTS
        invariant forall k :: 0 <= k < x ==> keys[k] == 0
      {
        keys[x] := 0;
      }
      colours := 0;
      pal, slots, steps := [], [], [];
    }

    /** The colour's palette index, added if new; refused when it would be the 257th. */
    method Intern(b: u8, g: u8, r: u8) returns (ok: bool, index: u8)
      requires Valid()
      modifies this, palette, keys, values
      ensures Valid()
      ensures ok <==> Rgb(r, g, b) in old(pal) || |old(pal)| < MAX_COLOURS
      ensures ok ==> index < |pal| && pal[index] == Rgb(r, g, b)
      ensures pal == if Rgb(r, g, b) in old(pal) || !ok then old(pal) else old(pal) + [Rgb(r, g, b)]
    {
      hide Hash, Key, Table, Resident, PaletteHolds, Slot;
      ghost var c := Rgb(r, g, b);
      var key := Key(Rgb(r, g, b));
      var slot := Hash(key);
      ghost var start, n: nat := slot, 0;
      ghost var limit := EmptyAhead(keys[..], values[..], pal, slots, steps, start);
      SlotStart(start);
      TableSize(keys[..], values[..], pal, slots, steps);
      while keys[slot] != 0
        invariant Valid() && pal == old(pal)
        invariant n <= limit && slot == Slot(start, n) && keys[..][Slot(start, limit)] == 0
        invariant forall m: nat :: m < n ==> keys[..][Slot(start, m)] != 0 && keys[..][Slot(start, m)] != key + 1
        decreases limit - n
      {
        assert keys[slot] == keys[..][slot];
        if keys[slot] == key + 1 {
          FoundIs(keys[..], values[..], pal, slots, steps, c, slot);
          assert values[slot] == values[..][slot];
          return true, values[slot];
        }
        assert n != limit;
        SlotNext(start, n);
        slot := (slot + 1) % SLOTS;
        n := n + 1;
      }
      assert keys[slot] == keys[..][slot];
      if c in pal {
        HeldIsFound(keys[..], values[..], pal, slots, steps, c, n);
      }
      if colours == MAX_COLOURS {
        return false, 0;
      }
      index := colours;
      Insert(b, g, r, slot, n);
      return true, index;
    }

    /** Put a new colour into the empty slot its probe ended at. */
    method Insert(b: u8, g: u8, r: u8, slot: nat, ghost n: nat)
      requires Valid() && Rgb(r, g, b) !in pal && |pal| < MAX_COLOURS
      requires slot == Slot(Hash(Key(Rgb(r, g, b))), n) && keys[..][slot] == 0
      requires forall m: nat :: m < n ==> keys[..][Slot(Hash(Key(Rgb(r, g, b))), m)] != 0
      modifies this, palette, keys, values
      ensures Valid() && pal == old(pal) + [Rgb(r, g, b)]
    {
      hide Hash, Key, Table, Resident, PaletteHolds;
      ghost var c := Rgb(r, g, b);
      ghost var ks: seq<u32>, vs: seq<u8>, ps: seq<u8> := keys[..], values[..], palette[..];
      ghost var stored: u32, place: u8 := Key(c) + 1, colours;
      InsertKeeps(ks, vs, pal, slots, steps, c, n);
      keys[slot] := Key(Rgb(r, g, b)) + 1;
      values[slot] := colours;
      palette[4 * colours] := b;
      palette[4 * colours + 1] := g;
      palette[4 * colours + 2] := r;
      palette[4 * colours + 3] := 0;
      PaletteAppend(ps, palette[..], pal, c);
      colours := colours + 1;
      pal, slots, steps := pal + [c], slots + [slot], steps + [n];
      assert keys[..] == ks[slot := stored] && values[..] == vs[slot := place];
    }
  }
}
