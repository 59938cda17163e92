/**
 * The string-interning hash slots (src/data/hash.c, src/data/hash.h): djb2
 * hashing, open addressing with linear probing, and a character pool
 * holding the interned strings back to back, each ended by a 0.
 *
 * Characters are C `char`s, signed 8-bit codes; a C string is the sequence
 * of its characters without the terminating 0.
 */
module HashMap {
  const UINT_MOD: int := 0x1_0000_0000
  /** UINT_MAX / 2 */
  const HASH_MOD: int := 0x7fff_ffff

  /** A C `char`: a signed 8-bit code. */
  type Char = c: int | -128 <= c < 128

  /** A C string cannot contain the terminator. */
  predicate CStr(s: seq<Char>)
  {
    forall i :: 0 <= i < |s| ==> s[i] != 0
  }

  /**
   * djb2: start at 5381, then (hash << 5) + hash + c for each character.
   * The arithmetic is unsigned 32-bit: the signed char is converted and the
   * sum wraps, which is reduction modulo 2^32.
   */
  function Djb2(s: seq<Char>): (h: int)
    ensures 0 <= h < UINT_MOD
  {
    if |s| == 0 then 5381 else (Djb2(s[..|s| - 1]) * 32 + Djb2(s[..|s| - 1]) + s[|s| - 1]) % UINT_MOD
  }

  /** hash(): djb2 reduced below UINT_MAX / 2, so it fits a nonnegative int. */
  function HashOf(s: seq<Char>): (h: int)
    ensures 0 <= h < HASH_MOD
  {
    Djb2(s) % HASH_MOD
  }

  /** djb2_hash: the loop over the characters. */
  method Djb2Hash(str: seq<Char>) returns (h: int)
    ensures h == Djb2(str)
  {
    h := 5381;
    var i := 0;
    while i < |str|
      invariant 0 <= i <= |str|
      invariant h == Djb2(str[..i])
    {
      assert str[..i + 1][..i] == str[..i];
      h := (h * 32 + h + str[i]) % UINT_MOD;
      i := i + 1;
    }
    assert str[..|str|] == str;
  }

  /** hash() */
  method Hash(str: seq<Char>) returns (h: int)
    ensures h == HashOf(str) && 0 <= h < HASH_MOD
  {
    var d := Djb2Hash(str);
    h := d % HASH_MOD;
  }

  /** The C string that starts at offset off of the pool: the characters up to the first 0. */
  function StrAt(mem: seq<Char>, off: nat): (s: seq<Char>)
    requires off <= |mem|
    decreases |mem| - off
    ensures CStr(s) && off + |s| <= |mem|
  {
    if off == |mem| || mem[off] == 0 then []
    else
      var t := StrAt(mem, off + 1);
      assert forall i :: 0 < i <= |t| ==> ([mem[off]] + t)[i] == t[i - 1];
      [mem[off]] + t
  }

  /** s is stored at off, terminated, wholly below used. */
  predicate Stored(mem: seq<Char>, off: int, s: seq<Char>, used: int)
  {
    0 <= off && off + |s| < used <= |mem| && mem[off..off + |s|] == s && mem[off + |s|] == 0
  }

  /** The string read back from a stored position is the string stored there. */
  lemma {:induction false} StoredReadsBack(mem: seq<Char>, off: nat, s: seq<Char>, used: int)
    requires Stored(mem, off, s, used) && CStr(s)
    ensures StrAt(mem, off) == s
    decreases |s|
  {
    if |s| > 0 {
      assert mem[off] == s[0];
      assert Stored(mem, off + 1, s[1..], used) by {
        assert mem[off + 1..off + 1 + |s[1..]|] == mem[off..off + |s|][1..];
      }
      StoredReadsBack(mem, off + 1, s[1..], used);
      assert s == [s[0]] + s[1..];
    }
  }

  /** Writing only at or above used keeps a stored string. */
  lemma StoredKept(mem: seq<Char>, mem': seq<Char>, off: int, s: seq<Char>, used: int, used': int)
    requires Stored(mem, off, s, used) && used <= used' <= |mem'| && used <= |mem'|
    requires mem'[..used] == mem[..used]
    ensures Stored(mem', off, s, used')
  {
    assert mem'[off..off + |s|] == mem'[..used][off..off + |s|];
    assert mem[off..off + |s|] == mem[..used][off..off + |s|];
    assert mem'[off + |s|] == mem'[..used][off + |s|];
    assert mem[off + |s|] == mem[..used][off + |s|];
  }

  /** The slot after h in a table of n slots, wrapping to 0. */
  function Next(h: int, n: int): int
  {
    if h + 1 >= n then 0 else h + 1
  }

  /** The slot reached after d probes from h, at most one wrap around a table of n slots. */
  function Slot(h: int, d: nat, n: int): int
  {
    if h + d < n then h + d else h + d - n
  }

  /** Probing one more time moves to the next slot, wrapping to 0 past the end. */
  lemma SlotStep(h: int, d: nat, n: int)
    requires 0 <= h < n && d < n
    ensures Slot(h, d + 1, n) == Next(Slot(h, d, n), n)
    ensures 0 <= Slot(h, d, n) < n
  {
  }

  /** Every slot is reached from any start within n probes. */
  lemma ProbeReachesAll(first: int, h: int, n: int) returns (d: nat)
    requires 0 <= first < n && 0 <= h < n
    ensures d < n && Slot(first, d, n) == h
  {
    d := if h >= first then h - first else n - first + h;
  }

  /** An injective sequence of values below m has at most m elements. */
  lemma {:induction false} InjectiveBound(f: seq<int>, m: nat)
    requires forall i :: 0 <= i < |f| ==> 0 <= f[i] < m
    requires forall i, j :: 0 <= i < j < |f| ==> f[i] != f[j]
    ensures |f| <= m
  {
    if |f| > 0 {
      assert f[0] < m;
    }
    if m == 0 {
    } else if p :| 0 <= p < |f| && f[p] == m - 1 {
      var g := f[..p] + f[p + 1..];
      assert forall i :: 0 <= i < |g| ==> g[i] == if i < p then f[i] else f[i + 1];
      InjectiveBound(g, m - 1);
    } else {
      InjectiveBound(f, m - 1);
    }
  }

  /** Slot h of the table holds a string. */
  predicate OccupiedIn(sl: seq<int>, h: int)
  {
    0 <= h < |sl| && sl[h] >= 0
  }

  /**
   * In a table of n slots with offsets sl, index-to-slot i2 and slot-to-index
   * s2: string k sits in slot i2[k], its characters are stored at that slot's
   * offset, and every slot probed before it from its home slot is occupied.
   */
  ghost predicate InternedIn(k: int, n: int, sl: seq<int>, i2: seq<int>, s2: seq<int>,
                             mem: seq<Char>, used: int, keys: seq<seq<Char>>, probes: seq<nat>)
    requires |sl| == n && |i2| == n && |s2| == n && n > 0
    requires |keys| == |probes| && 0 <= k < |keys| <= n
  {
    var h := i2[k];
    0 <= h < n && sl[h] >= 0 && s2[h] == k &&
    CStr(keys[k]) && Stored(mem, sl[h], keys[k], used) &&
    probes[k] < n && Slot(HashOf(keys[k]) % n, probes[k], n) == h &&
    forall d :: 0 <= d < probes[k] ==> OccupiedIn(sl, Slot(HashOf(keys[k]) % n, d, n))
  }

  /**
   * Claiming an empty slot for a new string keeps every earlier string
   * interned: its slot, its characters and its probe chain survive.
   */
  lemma KeptInterned(k: int, n: int, sl: seq<int>, i2: seq<int>, s2: seq<int>, mem: seq<Char>, used: int,
                     keys: seq<seq<Char>>, probes: seq<nat>, hinx: int, off: int, mem': seq<Char>, used': int,
                     str: seq<Char>, d: nat)
    requires |sl| == n && |i2| == n && |s2| == n && n > 0
    requires |keys| == |probes| && 0 <= k < |keys| < n
    requires InternedIn(k, n, sl, i2, s2, mem, used, keys, probes)
    requires 0 <= hinx < n && sl[hinx] < 0 && off >= 0
    requires used <= used' <= |mem'| && used <= |mem| && mem'[..used] == mem[..used]
    ensures InternedIn(k, n, sl[hinx := off], i2[|keys| := hinx], s2[hinx := |keys|], mem', used',
                       keys + [str], probes + [d])
  {
    var sl' := sl[hinx := off];
    var keys', probes' := keys + [str], probes + [d];
    assert keys'[k] == keys[k] && probes'[k] == probes[k];
    StoredKept(mem, mem', sl[i2[k]], keys[k], used, used');
    var home := HashOf(keys[k]) % n;
    forall e | 0 <= e < probes[k]
      ensures OccupiedIn(sl', Slot(home, e, n))
    {
      assert OccupiedIn(sl, Slot(home, e, n));
    }
  }

  /**
   * The whole table over sequences: every interned string is in place, every
   * occupied slot points back at its string's index, and no string is interned twice.
   */
  ghost predicate TableIn(n: int, sl: seq<int>, i2: seq<int>, s2: seq<int>,
                          mem: seq<Char>, used: int, keys: seq<seq<Char>>, probes: seq<nat>)
  {
    |sl| == n && |i2| == n && |s2| == n && n > 0 &&
    |keys| == |probes| && |keys| <= n && 0 <= used <= |mem| &&
    (forall k :: 0 <= k < |keys| ==> 0 <= i2[k] < n) &&
    (forall k :: 0 <= k < |keys| ==> InternedIn(k, n, sl, i2, s2, mem, used, keys, probes)) &&
    (forall h :: 0 <= h < n && sl[h] >= 0 ==> sl[h] < used && 0 <= s2[h] < |keys| && i2[s2[h]] == h) &&
    (forall k, k' :: 0 <= k < k' < |keys| ==> keys[k] != keys[k'])
  }

  /**
   * Storing a new string at the end of the pool and claiming for it the
   * first empty slot on its probe chain keeps the table whole.
   */
  lemma ClaimKeepsTable(n: int, sl: seq<int>, i2: seq<int>, s2: seq<int>, mem: seq<Char>, used: int,
                        keys: seq<seq<Char>>, probes: seq<nat>, str: seq<Char>, first: int, d: nat, hinx: int,
                        mem': seq<Char>, used': int)
    requires TableIn(n, sl, i2, s2, mem, used, keys, probes) && |keys| < n
    requires CStr(str) && str !in keys
    requires first == HashOf(str) % n && d < n && hinx == Slot(first, d, n) && 0 <= hinx < n && sl[hinx] < 0
    requires forall e :: 0 <= e < d ==> OccupiedIn(sl, Slot(first, e, n))
    requires used <= used' <= |mem'| && mem'[..used] == mem[..used] && Stored(mem', used, str, used')
    ensures TableIn(n, sl[hinx := used], i2[|keys| := hinx], s2[hinx := |keys|], mem', used', keys + [str], probes + [d])
  {
    var r := |keys|;
    var sl', i2', s2', keys', probes' := sl[hinx := used], i2[r := hinx], s2[hinx := r], keys + [str], probes + [d];
    forall k | 0 <= k < r
      ensures InternedIn(k, n, sl', i2', s2', mem', used', keys', probes')
    {
      KeptInterned(k, n, sl, i2, s2, mem, used, keys, probes, hinx, used, mem', used', str, d);
    }
    assert keys'[r] == str && probes'[r] == d;
    forall e | 0 <= e < d
      ensures OccupiedIn(sl', Slot(first, e, n))
    {
      assert OccupiedIn(sl, Slot(first, e, n));
    }
    assert InternedIn(r, n, sl', i2', s2', mem', used', keys', probes');
    forall h | 0 <= h < n && sl'[h] >= 0
      ensures sl'[h] < used' && 0 <= s2'[h] < |keys'| && i2'[s2'[h]] == h
    {
      if h != hinx {
        assert sl[h] >= 0;
        assert i2[s2[h]] == h;
      }
    }
    forall k, k' | 0 <= k < k' < |keys'|
      ensures keys'[k] != keys'[k']
    {
      if k' == r {
        assert keys[k] in keys;
      }
    }
  }

  class HashMap {
    var mapSize: int
    /** slots[h]: pool offset of the string in slot h, or -1 when empty. */
    var slots: array<int>
    /** i2s[k]: the slot of the string with index k. */
    var i2s: array<int>
    /** s2i[h]: the index of the string in slot h. */
    var s2i: array<int>
    var mapUsed: int
    /** The character pool; its length is mem_size. */
    var mem: seq<Char>
    var memUsed: int
    /** The interned strings, by index. */
    ghost var keys: seq<seq<Char>>
    /** How many probes past its home slot each string sits. */
    ghost var probes: seq<nat>

    ghost predicate Valid()
      reads this, slots, i2s, s2i
    {
      slots.Length == mapSize && i2s.Length == mapSize && s2i.Length == mapSize &&
      slots != i2s && slots != s2i && i2s != s2i && |keys| == mapUsed &&
      TableIn(mapSize, slots[..], i2s[..], s2i[..], mem, memUsed, keys, probes)
    }

    /** String k sits in slot i2s[k], reached by probing from its home through occupied slots only. */
    ghost predicate Interned(k: int)
      reads this, slots, i2s, s2i
      requires slots.Length == mapSize && i2s.Length == mapSize && s2i.Length == mapSize && mapSize > 0
      requires |keys| == mapUsed && |probes| == mapUsed && 0 <= k < mapUsed <= mapSize
    {
      InternedIn(k, mapSize, slots[..], i2s[..], s2i[..], mem, memUsed, keys, probes)
    }

    ghost predicate Occupied(h: int)
      reads this, slots
    {
      0 <= h < slots.Length && slots[h] >= 0
    }

    /** hashmap_create: every slot empty, nothing interned, a zeroed pool of memSize characters. */
    constructor (mapSize: int, memSize: int)
      requires mapSize > 0 && memSize >= 0
      ensures Valid() && fresh(slots) && fresh(i2s) && fresh(s2i)
      ensures this.mapSize == mapSize && mapUsed == 0 && memUsed == 0 && |mem| == memSize && keys == []
      ensures forall h :: 0 <= h < mapSize ==> slots[h] == -1
    {
      this.mapSize := mapSize;
      i2s := new int[mapSize](_ => 0);
      s2i := new int[mapSize](_ => 0);
      var m := new int[mapSize](_ => 0);
      var i := 0;
      while i < mapSize
        invariant 0 <= i <= mapSize
        invariant forall h :: 0 <= h < i ==> m[h] == -1
      {
        m[i] := -1;
        i := i + 1;
      }
      slots := m;
      mapUsed := 0;
      mem := seq(memSize, _ => 0);
      memUsed := 0;
      keys := [];
      probes := [];
    }

    /**
     * hashmap_inx2str: the string with index inx, or "" when there is none.
     */
    function Inx2Str(inx: int): (s: seq<Char>)
      reads this, slots, i2s, s2i
      requires Valid()
    {
      if 0 <= inx < mapUsed && slots[i2s[inx]] >= 0 then StrAt(mem, slots[i2s[inx]]) else []
    }

    /** Index to string: the interned string for an index in use, "" for any other. */
    lemma Inx2StrIsKey(inx: int)
      requires Valid()
      ensures 0 <= inx < mapUsed ==> Inx2Str(inx) == keys[inx]
      ensures !(0 <= inx < mapUsed) ==> Inx2Str(inx) == []
    {
      if 0 <= inx < mapUsed {
        KeyReadsBack(inx);
      }
    }

    /** The string with index k is found at its slot's pool offset. */
    lemma KeyReadsBack(k: int)
      requires Valid() && 0 <= k < mapUsed
      ensures 0 <= i2s[k] < mapSize && 0 <= slots[i2s[k]] <= |mem|
      ensures StrAt(mem, slots[i2s[k]]) == keys[k]
    {
      assert Interned(k);
      StoredReadsBack(mem, slots[i2s[k]], keys[k], memUsed);
    }

    /**
     * hashmap_str2inx: the fast path tries the home slot first, then falls
     * back to the full probe; both give the same answer.
     */
    method Str2Inx(str: seq<Char>, ins: bool) returns (r: int)
      requires Valid() && CStr(str)
      modifies this, slots, i2s, s2i
      ensures Valid() && slots == old(slots) && i2s == old(i2s) && s2i == old(s2i) && mapSize == old(mapSize)
      ensures str in old(keys) ==> 0 <= r < |keys| && keys == old(keys) && keys[r] == str && unchanged(this, slots, i2s, s2i)
      ensures str !in old(keys) && (!ins || old(mapUsed) >= mapSize) ==> r == -1 && unchanged(this, slots, i2s, s2i)
      ensures str !in old(keys) && ins && old(mapUsed) < mapSize ==>
        r == old(mapUsed) && keys == old(keys) + [str] && mapUsed == old(mapUsed) + 1 &&
        memUsed == old(memUsed) + |str| + 1 && memUsed <= |mem|
      ensures r >= 0 ==> Inx2Str(r) == str
    {
      var hv := Hash(str);
      var hinx := hv % mapSize;
      if slots[hinx] >= 0 && StrAt(mem, slots[hinx]) == str {
        assert Interned(s2i[hinx]);
        StoredReadsBack(mem, slots[hinx], keys[s2i[hinx]], memUsed);
        r := s2i[hinx];
        Inx2StrIsKey(r);
        return;
      }
      r := Str2InxInt(str, ins);
    }

    /** hashmap_str2inx_int: probe linearly from the home slot; insert at the first empty slot if asked. */
    method Str2InxInt(str: seq<Char>, ins: bool) returns (r: int)
      requires Valid() && CStr(str)
      modifies this, slots, i2s, s2i
      ensures Valid() && slots == old(slots) && i2s == old(i2s) && s2i == old(s2i) && mapSize == old(mapSize)
      ensures str in old(keys) ==> 0 <= r < |keys| && keys == old(keys) && keys[r] == str && unchanged(this, slots, i2s, s2i)
      ensures str !in old(keys) && (!ins || old(mapUsed) >= mapSize) ==> r == -1 && unchanged(this, slots, i2s, s2i)
      ensures str !in old(keys) && ins && old(mapUsed) < mapSize ==>
        r == old(mapUsed) && keys == old(keys) + [str] && mapUsed == old(mapUsed) + 1 &&
        memUsed == old(memUsed) + |str| + 1 && memUsed <= |mem|
      ensures r >= 0 ==> Inx2Str(r) == str
    {
      var hv := Hash(str);
      var first := hv % mapSize;
      ValidReadsBack();
      var hinx, found, empty, d := Probe(str, first);
      if empty {
        r := Miss(str, ins, hinx, first, d);
      } else if found >= 0 {
        r := found;
        Inx2StrIsKey(r);
      } else {
        NotInterned(str, first, mapSize);
        Full(first);
        r := -1;
      }
    }

    /**
     * The probe loop of hashmap_str2inx_int: from the home slot first, step
     * to the next slot (wrapping) until an empty slot, the string, or first
     * again.
     */
    method Probe(str: seq<Char>, first: int) returns (hinx: int, found: int, empty: bool, ghost d: nat)
      requires SlotsReadBack() && 0 <= first < mapSize
      ensures 0 <= hinx < mapSize && d <= mapSize
      ensures forall e :: 0 <= e < d ==> Occupied(Slot(first, e, mapSize)) && keys[s2i[Slot(first, e, mapSize)]] != str
      ensures empty ==> found == -1 && d < mapSize && hinx == Slot(first, d, mapSize) && slots[hinx] < 0
      ensures found >= 0 ==> !empty && found < mapUsed && keys[found] == str
      ensures !empty && found < 0 ==> d == mapSize
    {
      hinx := first;
      d := 0;
      found, empty := -1, false;
      while true
        invariant d < mapSize && hinx == Slot(first, d, mapSize) && 0 <= hinx < mapSize
        invariant forall e :: 0 <= e < d ==> Occupied(Slot(first, e, mapSize)) && keys[s2i[Slot(first, e, mapSize)]] != str
        decreases mapSize - d
      {
        var isEmpty, isStr := Inspect(str, hinx);
        if isEmpty {
          empty := true;
          return;
        }
        if isStr {
          found := s2i[hinx];
          return;
        }
        SlotStep(first, d, mapSize);
        hinx := hinx + 1;
        if hinx >= mapSize {
          hinx := 0;
        }
        d := d + 1;
        if hinx == first {
          return;
        }
      }
    }

    /** One probe of the loop: is slot h empty, and if not, does it hold str? */
    method Inspect(str: seq<Char>, h: int) returns (isEmpty: bool, isStr: bool)
      requires SlotsReadBack() && 0 <= h < mapSize
      ensures isEmpty <==> !Occupied(h)
      ensures !isEmpty ==> 0 <= s2i[h] < mapUsed && (isStr <==> keys[s2i[h]] == str)
    {
      isEmpty := slots[h] < 0;
      isStr := false;
      if !isEmpty {
        isStr := StrAt(mem, slots[h]) == str;
      }
    }

    /** Every occupied slot holds the index of a string, and its pool offset reads back as that string. */
    ghost predicate SlotsReadBack()
      reads this, slots, s2i
    {
      slots.Length == mapSize && s2i.Length == mapSize && mapSize > 0 && |keys| == mapUsed &&
      forall h :: 0 <= h < mapSize && slots[h] >= 0 ==>
        0 <= s2i[h] < mapUsed && slots[h] <= |mem| && StrAt(mem, slots[h]) == keys[s2i[h]]
    }

    /** A valid table reads back through its slots. */
    lemma ValidReadsBack()
      requires Valid()
      ensures SlotsReadBack()
    {
      forall h | 0 <= h < mapSize && slots[h] >= 0
        ensures 0 <= s2i[h] < mapUsed && slots[h] <= |mem| && StrAt(mem, slots[h]) == keys[s2i[h]]
      {
        KeyReadsBack(s2i[h]);
      }
    }

    /** The probe reached an empty slot: str is absent; insert it there when asked and there is room. */
    method Miss(str: seq<Char>, ins: bool, hinx: int, ghost first: int, ghost d: nat) returns (r: int)
      requires Valid() && CStr(str)
      requires first == HashOf(str) % mapSize && d < mapSize && hinx == Slot(first, d, mapSize)
      requires 0 <= hinx < mapSize && slots[hinx] < 0
      requires forall e :: 0 <= e < d ==> Occupied(Slot(first, e, mapSize)) && keys[s2i[Slot(first, e, mapSize)]] != str
      modifies this, slots, i2s, s2i
      ensures Valid() && slots == old(slots) && i2s == old(i2s) && s2i == old(s2i) && mapSize == old(mapSize)
      ensures str !in old(keys)
      ensures (!ins || old(mapUsed) >= mapSize) ==> r == -1 && unchanged(this, slots, i2s, s2i)
      ensures ins && old(mapUsed) < mapSize ==>
        r == old(mapUsed) && keys == old(keys) + [str] && mapUsed == old(mapUsed) + 1 &&
        memUsed == old(memUsed) + |str| + 1 && memUsed <= |mem|
      ensures r >= 0 ==> Inx2Str(r) == str
    {
      NotInterned(str, first, d);
      if !ins || mapUsed >= mapSize {
        return -1;
      }
      r := Insert(str, hinx, first, d);
    }

    /** When the first d probes from str's home miss, and probe d is empty or the table is exhausted, str is absent. */
    lemma NotInterned(str: seq<Char>, first: int, d: nat)
      requires Valid() && first == HashOf(str) % mapSize && d <= mapSize
      requires forall e :: 0 <= e < d ==> Occupied(Slot(first, e, mapSize)) && keys[s2i[Slot(first, e, mapSize)]] != str
      requires d == mapSize || !Occupied(Slot(first, d, mapSize))
      ensures str !in keys
    {
      forall k | 0 <= k < mapUsed
        ensures keys[k] != str
      {
        assert Interned(k);
      }
    }

    /** When all slots from first on are occupied, every index is used. */
    lemma Full(first: int)
      requires Valid() && 0 <= first < mapSize
      requires forall e :: 0 <= e < mapSize ==> Occupied(Slot(first, e, mapSize))
      ensures mapUsed == mapSize
    {
      var f := s2i[..];
      forall h | 0 <= h < mapSize
        ensures Occupied(h) && 0 <= f[h] < mapUsed
      {
        var e := ProbeReachesAll(first, h, mapSize);
        assert Occupied(Slot(first, e, mapSize));
      }
      forall i, j | 0 <= i < j < |f|
        ensures f[i] != f[j]
      {
        assert i2s[f[i]] == i && i2s[f[j]] == j;
      }
      InjectiveBound(f, mapUsed);
    }

    /**
     * Copy str and its terminator to the end of the used pool. When they do
     * not fit below mem_size, the pool first grows to mem_size * 3 / 2 + len
     * and everything past the used part is zeroed.
     */
    method Store(str: seq<Char>)
      requires 0 <= memUsed <= |mem|
      modifies this
      ensures memUsed == old(memUsed) + |str| + 1 <= |mem|
      ensures mem[..old(memUsed)] == old(mem)[..old(memUsed)]
      ensures mem[old(memUsed)..old(memUsed) + |str|] == str && mem[old(memUsed) + |str|] == 0
      ensures |mem| >= |old(mem)|
      ensures mapSize == old(mapSize) && slots == old(slots) && i2s == old(i2s) && s2i == old(s2i)
      ensures mapUsed == old(mapUsed) && keys == old(keys) && probes == old(probes)
    {
      var len := |str| + 1;
      if memUsed + len >= |mem| {
        var newSize := |mem| * 3 / 2 + len;
        mem := mem[..memUsed] + seq(newSize - memUsed, _ => 0);
      }
      mem := mem[..memUsed] + str + [0] + mem[memUsed + len..];
      memUsed := memUsed + len;
    }

    /** The insertion branch: copy str into the pool and claim the empty slot hinx for index mapUsed. */
    method Insert(str: seq<Char>, hinx: int, ghost first: int, ghost d: nat) returns (r: int)
      requires Valid() && CStr(str) && str !in keys && mapUsed < mapSize
      requires first == HashOf(str) % mapSize && d < mapSize && hinx == Slot(first, d, mapSize)
      requires 0 <= hinx < mapSize && slots[hinx] < 0
      requires forall e :: 0 <= e < d ==> Occupied(Slot(first, e, mapSize))
      modifies this, slots, i2s, s2i
      ensures Valid() && slots == old(slots) && i2s == old(i2s) && s2i == old(s2i) && mapSize == old(mapSize)
      ensures r == old(mapUsed) && keys == old(keys) + [str] && mapUsed == old(mapUsed) + 1
      ensures memUsed == old(memUsed) + |str| + 1 && memUsed <= |mem|
      ensures Inx2Str(r) == str
    {
      ghost var sl, i2, s2, mem0, used0 := slots[..], i2s[..], s2i[..], mem, memUsed;
      ghost var keys0, probes0 := keys, probes;
      assert forall e :: 0 <= e < d ==> OccupiedIn(sl, Slot(first, e, mapSize));
      var off := memUsed;
      Store(str);
      slots[hinx] := off;
      i2s[mapUsed] := hinx;
      s2i[hinx] := mapUsed;
      keys := keys + [str];
      probes := probes + [d];
      r := mapUsed;
      mapUsed := mapUsed + 1;
      assert slots[..] == sl[hinx := used0] && i2s[..] == i2[r := hinx] && s2i[..] == s2[hinx := r];
      ClaimKeepsTable(mapSize, sl, i2, s2, mem0, used0, keys0, probes0, str, first, d, hinx, mem, memUsed);
      Inx2StrIsKey(r);
    }
  }
}
