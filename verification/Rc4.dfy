/** The session cipher. The keystream does not depend on the data, so the specification gives the cipher
    state after `n` bytes and reads the keystream off it; the two in-place implementations are proved
    against that. */
module Rc4 {
  import opened Bytes

  type Table = s: seq<byte> | |s| == 256 witness seq(256, i => i)

  datatype Cipher = Cipher(s: Table, x: byte, y: byte)

  function Identity(): Table { seq(256, i => i) }

  function Swap(s: Table, i: byte, j: byte): Table { s[i := s[j]][j := s[i]] }

  /** Byte addition with wrap-around. */
  function Plus(a: byte, b: byte): byte { (a as int + b as int) % 256 }

  // ----- Key schedule -----

  /** Table and running index after `n` rounds of mixing `key` into the identity table. */
  function Mixed(key: seq<byte>, n: nat): (Table, byte)
    requires |key| > 0 && n <= 256
  {
    if n == 0 then (Identity(), 0)
    else
      var (s, j) := Mixed(key, n - 1);
      var j' := Plus(Plus(key[(n - 1) % |key|], s[n - 1]), j);
      (Swap(s, n - 1, j'), j')
  }

  function Prepared(key: seq<byte>): Cipher
    requires |key| > 0
  {
    Cipher(Mixed(key, 256).0, 0, 0)
  }

  // ----- Keystream -----

  function Advance(c: Cipher): Cipher {
    var x := Plus(c.x, 1);
    var y := Plus(c.s[x], c.y);
    Cipher(Swap(c.s, x, y), x, y)
  }

  function Emitted(c: Cipher): byte {
    c.s[Plus(c.s[c.x], c.s[c.y])]
  }

  /** The cipher after `n` bytes have gone through it. */
  function After(c: Cipher, n: nat): Cipher {
    if n == 0 then c else Advance(After(c, n - 1))
  }

  function KeyByte(c: Cipher, i: nat): byte { Emitted(After(c, i + 1)) }

  function Crypt(c: Cipher, data: seq<byte>): (out: seq<byte>)
    ensures |out| == |data|
  {
    seq(|data|, i requires 0 <= i < |data| => Xor(data[i], KeyByte(c, i)))
  }

  // ----- Laws -----

  lemma {:induction false} AfterSplits(c: Cipher, m: nat, n: nat)
    ensures After(c, m + n) == After(After(c, m), n)
  {
    hide Advance;
    if n > 0 {
      AfterSplits(c, m, n - 1);
    }
  }

  /** One more byte through the cipher. */
  lemma NextState(c: Cipher, n: nat)
    ensures After(c, 0) == c && After(c, n + 1) == Advance(After(c, n))
    ensures KeyByte(c, n) == Emitted(Advance(After(c, n)))
  {
    hide Advance, Emitted;
  }

  lemma KeyByteShifts(c: Cipher, m: nat, i: nat)
    ensures KeyByte(c, m + i) == KeyByte(After(c, m), i)
  {
    hide After, Advance, Emitted;
    AfterSplits(c, m, i + 1);
  }

  lemma CryptAt(c: Cipher, a: seq<byte>, b: seq<byte>)
    ensures forall i :: 0 <= i < |a| + |b| ==>
      Crypt(c, a + b)[i] == (Crypt(c, a) + Crypt(After(c, |a|), b))[i]
  {
    hide After, KeyByte, Xor;
    forall i | 0 <= i < |a| + |b|
      ensures Crypt(c, a + b)[i] == (Crypt(c, a) + Crypt(After(c, |a|), b))[i]
    {
      if |a| <= i {
        KeyByteShifts(c, |a|, i - |a|);
        assert (a + b)[i] == b[i - |a|];
      } else {
        assert (a + b)[i] == a[i];
      }
    }
  }

  /** Processing `a + b` in one call equals processing `a` and then `b`: header and payload may be
      deciphered in separate calls. */
  lemma CryptSplits(c: Cipher, a: seq<byte>, b: seq<byte>)
    ensures Crypt(c, a + b) == Crypt(c, a) + Crypt(After(c, |a|), b)
    ensures After(c, |a + b|) == After(After(c, |a|), |b|)
  {
    assert After(c, |a + b|) == After(After(c, |a|), |b|) by {
      AfterSplits(c, |a|, |b|);
    }
    CryptAt(c, a, b);
    assert Crypt(c, a + b) == Crypt(c, a) + Crypt(After(c, |a|), b);
  }

  lemma CryptCut(c: Cipher, s: seq<byte>, k: nat)
    requires k <= |s|
    ensures Crypt(c, s)[..k] == Crypt(c, s[..k])
    ensures Crypt(c, s)[k..] == Crypt(After(c, k), s[k..])
  {
    CryptSplits(c, s[..k], s[k..]);
    assert s[..k] + s[k..] == s;
    assert |s[..k]| == k;
  }

  /** Two passes from equal states are the identity. */
  lemma CryptCancels(c: Cipher, data: seq<byte>)
    ensures Crypt(c, Crypt(c, data)) == data
  {
    forall i | 0 <= i < |data|
      ensures Crypt(c, Crypt(c, data))[i] == data[i]
    {
      XorCancels(data[i], KeyByte(c, i));
    }
  }

  /** Every byte value occurs exactly as often as in the identity table, that is, once. */
  predicate IsPermutation(s: Table) { multiset(s) == multiset(Identity()) }

  lemma SwapPermutes(s: Table, i: byte, j: byte)
    ensures multiset(Swap(s, i, j)) == multiset(s)
  {
    var t := s[i := s[j]];
    assert t[j] == s[j];
    assert multiset(t) == multiset(s) - multiset{s[i]} + multiset{s[j]};
    assert multiset(t[j := s[i]]) == multiset(t) - multiset{t[j]} + multiset{s[i]};
  }

  lemma {:induction false} MixedPermutes(key: seq<byte>, n: nat)
    requires |key| > 0 && n <= 256
    ensures IsPermutation(Mixed(key, n).0)
  {
    if n > 0 {
      MixedPermutes(key, n - 1);
      var (s, j) := Mixed(key, n - 1);
      SwapPermutes(s, n - 1, Plus(Plus(key[(n - 1) % |key|], s[n - 1]), j));
    }
  }

  lemma AdvancePermutes(c: Cipher)
    ensures multiset(Advance(c).s) == multiset(c.s)
  {
    var x := Plus(c.x, 1);
    SwapPermutes(c.s, x, Plus(c.s[x], c.y));
  }

  /** For every non-empty key the table is a permutation of 0..255 at every point of the stream. */
  lemma {:induction false} StaysPermutation(key: seq<byte>, n: nat)
    requires |key| > 0
    ensures IsPermutation(After(Prepared(key), n).s)
  {
    hide Mixed, Advance;
    if n == 0 {
      MixedPermutes(key, 256);
    } else {
      StaysPermutation(key, n - 1);
      AdvancePermutes(After(Prepared(key), n - 1));
    }
  }

  // ----- What the tables are -----

  /** One round of the schedule with key byte `k`. */
  function Round(s: Table, j: byte, n: nat, k: byte): (Table, byte)
    requires n < 256
  {
    var j' := Plus(Plus(k, s[n]), j);
    (Swap(s, n, j'), j')
  }

  lemma NextRound(key: seq<byte>, n: nat, k: byte)
    requires |key| > 0 && n < 256 && k == key[n % |key|]
    ensures Mixed(key, n + 1) == Round(Mixed(key, n).0, Mixed(key, n).1, n, k)
  {
  }

  lemma RoundIs(s: Table, j: byte, n: nat, k: byte)
    requires n < 256
    ensures var (s', j') := Round(s, j, n, k);
      && j' as int == (j as int + s[n] as int + k as int) % 256
      && TwoExchanged(s, s', n, j')
  {
    hide Plus;
    PlusThree(k, s[n], j);
  }

  lemma PlusThree(a: byte, b: byte, c: byte)
    ensures Plus(Plus(a, b), c) as int == (c as int + b as int + a as int) % 256
  {
  }

  /** In round `n` of a schedule the index moves to `j`, and entries `n` and `j` are exchanged. */
  ghost predicate Exchanged(tables: seq<Table>, js: seq<int>, n: nat, j: int)
    requires n + 1 < |tables| == |js| && n < 256 && 0 <= j < 256
  {
    js[n + 1] == j && TwoExchanged(tables[n], tables[n + 1], n, j)
  }

  /** `t` is `s` with entries `i` and `j` exchanged. */
  ghost predicate TwoExchanged(s: Table, t: Table, i: nat, j: int)
    requires i < 256 && 0 <= j < 256
  {
    t[i] == s[j] && t[j] == s[i] && forall k :: 0 <= k < 256 && k != i && k != j ==> t[k] == s[k]
  }

  /** The tables and running indices of a schedule: the first are the identity and 0, and each round adds the table entry
      and the key byte of its position to the index, modulo 256. */
  ghost predicate Schedule(bytes: seq<byte>, tables: seq<Table>, js: seq<int>) {
    && |bytes| == 256 && |tables| == |js| == 257 && js[0] == 0 && (forall i :: 0 <= i < 256 ==> tables[0][i] == i)
    && forall n :: 0 <= n < 256 ==> Exchanged(tables, js, n, (js[n] + tables[n][n] as int + bytes[n] as int) % 256)
  }

  /** The 256 bytes that a key repeated over and over starts with. */
  ghost predicate Repeats(key: seq<byte>, bytes: seq<byte>)
    requires |key| > 0
  {
    |bytes| == 256 && forall n :: 0 <= n < 256 ==> bytes[n] == key[n % |key|]
  }

  /** Every key has such a schedule, and the cipher starts with its last table and both indices at 0. */
  lemma ScheduleOf(key: seq<byte>) returns (bytes: seq<byte>, tables: seq<Table>, js: seq<int>)
    requires |key| > 0
    ensures Repeats(key, bytes) && Schedule(bytes, tables, js) && Prepared(key) == Cipher(tables[256], 0, 0)
  {
    hide Mixed, Round, Exchanged;
    bytes := seq(256, n requires 0 <= n < 256 => key[n % |key|]);
    tables := seq(257, n requires 0 <= n < 257 => Mixed(key, n).0);
    js := seq(257, n requires 0 <= n < 257 => Mixed(key, n).1 as int);
    NothingMixed(key);
    forall n | 0 <= n < 256
      ensures Exchanged(tables, js, n, (js[n] + tables[n][n] as int + bytes[n] as int) % 256)
    {
      NextRound(key, n, bytes[n]);
      RoundExchanges(tables, js, n, bytes[n]);
    }
  }

  lemma RoundExchanges(tables: seq<Table>, js: seq<int>, n: nat, k: byte)
    requires n + 1 < |tables| == |js| && n < 256 && 0 <= js[n] < 256
    requires 0 <= js[n + 1] < 256 && (tables[n + 1], js[n + 1] as byte) == Round(tables[n], js[n] as byte, n, k)
    ensures Exchanged(tables, js, n, (js[n] + tables[n][n] as int + k as int) % 256)
  {
    hide Round, TwoExchanged;
    RoundIs(tables[n], js[n] as byte, n, k);
  }

  lemma NothingMixed(key: seq<byte>)
    requires |key| > 0
    ensures Mixed(key, 0) == (Identity(), 0)
  {
  }

  /** A schedule is determined by its key bytes. */
  lemma {:induction false} ScheduleUnique(bytes: seq<byte>, t: seq<Table>, j: seq<int>, t': seq<Table>, j': seq<int>, n: nat)
    requires Schedule(bytes, t, j) && Schedule(bytes, t', j') && n <= 256
    ensures t[n] == t'[n] && j[n] == j'[n]
  {
    hide Exchanged;
    if n > 0 {
      ScheduleUnique(bytes, t, j, t', j', n - 1);
      var k := (j[n - 1] + t[n - 1][n - 1] as int + bytes[n - 1] as int) % 256;
      SameExchange(t, j, t', j', n - 1, k);
    } else {
      var a, b := t[0], t'[0];
      assert forall i :: 0 <= i < 256 ==> a[i] == b[i];
    }
  }

  lemma SameExchange(t: seq<Table>, j: seq<int>, t': seq<Table>, j': seq<int>, n: nat, k: int)
    requires n + 1 < |t| == |j| == |t'| == |j'| && n < 256 && 0 <= k < 256 && t[n] == t'[n]
    requires Exchanged(t, j, n, k) && Exchanged(t', j', n, k)
    ensures t[n + 1] == t'[n + 1] && j[n + 1] == j'[n + 1]
  {
    var a, b := t[n + 1], t'[n + 1];
    assert a[n] == b[n] && a[k] == b[k];
    assert forall i :: 0 <= i < 256 ==> a[i] == b[i];
  }

  lemma SmallIndex(n: nat, len: nat)
    requires n < len
    ensures n % len == n
  {
  }

  lemma {:induction false} SameStart(key: seq<byte>, other: seq<byte>, n: nat)
    requires |key| == |other| && n <= |key| && 0 < |key| <= 256 && forall i :: 0 <= i < n ==> key[i] == other[i]
    ensures Mixed(key, n) == Mixed(other, n)
  {
    hide Mixed, Round;
    if n > 0 {
      SameStart(key, other, n - 1);
      SmallIndex(n - 1, |key|);
      NextRound(key, n - 1, key[n - 1]);
      NextRound(other, n - 1, other[n - 1]);
    } else {
      NothingMixed(key);
      NothingMixed(other);
    }
  }

  /** The schedule reads the key: two keys of one length that first differ at byte `p` part ways in round `p`. */
  lemma KeysPart(key: seq<byte>, other: seq<byte>, p: nat)
    requires |key| == |other| <= 256 && p < |key| && (forall i :: 0 <= i < p ==> key[i] == other[i]) && key[p] != other[p]
    ensures Mixed(key, p + 1).1 != Mixed(other, p + 1).1
  {
    hide Mixed, Round;
    SameStart(key, other, p);
    SmallIndex(p, |key|);
    NextRound(key, p, key[p]);
    NextRound(other, p, other[p]);
    var (s, j) := Mixed(key, p);
    RoundIs(s, j, p, key[p]);
    RoundIs(s, j, p, other[p]);
    DifferentSums(j as int + s[p] as int, key[p], other[p]);
  }

  lemma DifferentSums(x: int, a: byte, b: byte)
    requires a != b
    ensures (x + a as int) % 256 != (x + b as int) % 256
  {
  }

  /** One byte of the stream: the first index counts up, the second adds the entry found there, the two entries are
      exchanged, and the data byte is xored with the entry at their sum, all modulo 256. */
  lemma StreamStep(c: Cipher, data: seq<byte>, n: nat)
    requires n < |data|
    ensures var b, a := After(c, n), After(c, n + 1);
      var x := (b.x as int + 1) % 256;
      var y := (b.y as int + b.s[x] as int) % 256;
      && a.x == x && a.y == y && TwoExchanged(b.s, a.s, x, y)
      && Crypt(c, data)[n] == Xor(data[n], a.s[(b.s[x] as int + b.s[y] as int) % 256])
  {
    hide After, Xor;
    NextState(c, n);
  }

  // ----- Implementations -----

  /** The C++ cipher object: byte-wide indices, table swapped in place, buffer xored in place. */
  class WestwoodRC4 {
    const state: array<byte>
    var x: byte
    var y: byte

    ghost function View(): Cipher
      reads this, state
      requires state.Length == 256
    {
      Cipher(state[..], x, y)
    }

    constructor ()
      ensures fresh(state) && state.Length == 256
    {
      state := new byte[256](_ => 0);
      x, y := 0, 0;
    }

    method SwapByte(i: byte, j: byte)
      requires state.Length == 256
      modifies state
      ensures state[..] == Swap(old(state[..]), i, j)
    {
      var swapByte := state[i];
      state[i] := state[j];
      state[j] := swapByte;
    }

    /** The index into the key is a wrapping byte counter; for every key length it agrees with the
        position modulo the length for the 256 rounds that use it. */
    method PrepareKey(key: array<byte>)
      requires state.Length == 256 && key.Length > 0 && key != state
      modifies this, state
      ensures View() == Prepared(key[..])
      ensures key[..] == old(key[..])
    {
      for counter := 0 to 256
        invariant forall k :: 0 <= k < counter ==> state[k] == k
      {
        state[counter] := counter;
      }
      assert state[..] == Identity();
      x, y := 0, 0;
      var index1: byte := 0;
      var index2: byte := 0;
      for counter := 0 to 256
        invariant counter < 256 ==> index1 == counter % key.Length
        invariant Mixed(key[..], counter) == (state[..], index2)
        invariant x == 0 && y == 0 && key[..] == old(key[..])
      {
        index2 := Plus(Plus(key[index1], state[counter]), index2);
        SwapByte(counter, index2);
        NextIndex(counter, key.Length);
        index1 := (index1 as int + 1) % key.Length % 256;
      }
    }

    method RC4(buffer: array<byte>, len: nat)
      requires state.Length == 256 && buffer != state && len <= buffer.Length
      modifies this, state, buffer
      ensures View() == After(old(View()), len)
      ensures buffer[..len] == Crypt(old(View()), old(buffer[..len]))
      ensures buffer[len..] == old(buffer[len..])
    {
      hide After, KeyByte, Xor;
      ghost var c := View();
      ghost var data := buffer[..];
      var lx: byte, ly: byte := x, y;
      NextState(c, 0);
      for counter := 0 to len
        invariant Cipher(state[..], lx, ly) == After(c, counter)
        invariant forall k :: 0 <= k < counter ==> buffer[k] == Xor(data[k], KeyByte(c, k))
        invariant forall k :: counter <= k < buffer.Length ==> buffer[k] == data[k]
      {
        NextState(c, counter);
        lx := Plus(lx, 1);
        ly := Plus(state[lx], ly);
        SwapByte(lx, ly);
        assert Cipher(state[..], lx, ly) == After(c, counter + 1);
        var xorIndex := Plus(state[lx], state[ly]);
        assert state[xorIndex] == KeyByte(c, counter);
        buffer[counter] := Xor(buffer[counter], state[xorIndex]);
      }
      x, y := lx, ly;
    }
  }

  /** Stepping a wrapping key index keeps it equal to the position modulo the key length. */
  lemma NextIndex(i: nat, len: nat)
    requires len > 0 && i < 256
    ensures i + 1 < 256 ==> (i % len + 1) % len % 256 == (i + 1) % len
  {
    var q, r := i / len, i % len;
    assert i == len * q + r;
    if r + 1 < len {
      RemainderIs(i + 1, len, q, r + 1);
      RemainderIs(r + 1, len, 0, r + 1);
    } else {
      assert len * (q + 1) == len * q + len;
      RemainderIs(i + 1, len, q + 1, 0);
      RemainderIs(r + 1, len, 1, 0);
    }
  }

  /** The C# cipher object: as the C++ one, but an empty key is refused and the whole span is transformed. */
  class ManagedRC4 {
    const state: array<byte>
    var x: byte
    var y: byte

    ghost function View(): Cipher
      reads this, state
      requires state.Length == 256
    {
      Cipher(state[..], x, y)
    }

    constructor ()
      ensures fresh(state) && state.Length == 256
    {
      state := new byte[256](_ => 0);
      x, y := 0, 0;
    }

    method PrepareKey(keyData: seq<byte>) returns (ok: bool)
      requires state.Length == 256
      modifies this, state
      ensures ok <==> keyData != []
      ensures View() == if ok then Prepared(keyData) else old(View())
    {
      if keyData == [] {
        return false;
      }
      for counter := 0 to 256
        invariant forall k :: 0 <= k < counter ==> state[k] == k
      {
        state[counter] := counter;
      }
      assert state[..] == Identity();
      x, y := 0, 0;
      var index1: byte, index2: byte := 0, 0;
      for counter := 0 to 256
        invariant counter < 256 ==> index1 == counter % |keyData|
        invariant Mixed(keyData, counter) == (state[..], index2)
        invariant x == 0 && y == 0
      {
        ghost var before: Table := state[..];
        index2 := Plus(Plus(keyData[index1], state[counter]), index2);
        state[counter], state[index2] := state[index2], state[counter];
        assert state[..] == Swap(before, counter, index2);
        NextIndex(counter, |keyData|);
        index1 := (index1 as int + 1) % |keyData| % 256;
      }
      return true;
    }

    method Transform(buffer: array<byte>)
      requires state.Length == 256 && buffer != state
      modifies this, state, buffer
      ensures View() == After(old(View()), buffer.Length)
      ensures buffer[..] == Crypt(old(View()), old(buffer[..]))
    {
      hide After, KeyByte, Xor;
      ghost var c := View();
      ghost var data := buffer[..];
      var lx: byte, ly: byte := x, y;
      NextState(c, 0);
      for counter := 0 to buffer.Length
        invariant Cipher(state[..], lx, ly) == After(c, counter)
        invariant forall k :: 0 <= k < counter ==> buffer[k] == Xor(data[k], KeyByte(c, k))
        invariant forall k :: counter <= k < buffer.Length ==> buffer[k] == data[k]
      {
        NextState(c, counter);
        lx := Plus(lx, 1);
        ly := Plus(state[lx], ly);
        ghost var before: Table := state[..];
        state[lx], state[ly] := state[ly], state[lx];
        assert state[..] == Swap(before, lx, ly);
        assert Cipher(state[..], lx, ly) == After(c, counter + 1);
        var xorIndex := Plus(state[lx], state[ly]);
        assert state[xorIndex] == KeyByte(c, counter);
        buffer[counter] := Xor(buffer[counter], state[xorIndex]);
      }
      x, y := lx, ly;
    }
  }

  /** The capture-analysis cipher: key indexed by position modulo its length, output to a new buffer. */
  class ScriptRC4 {
    const s: array<byte>
    var x: byte
    var y: byte

    ghost function View(): Cipher
      reads this, s
      requires s.Length == 256
    {
      Cipher(s[..], x, y)
    }

    constructor (key: seq<byte>)
      requires |key| > 0
      ensures fresh(s) && s.Length == 256 && View() == Prepared(key)
    {
      s := new byte[256](i requires 0 <= i < 256 => i);
      x, y := 0, 0;
      new;
      assert s[..] == Identity();
      var j: byte := 0;
      for i := 0 to 256
        invariant Mixed(key, i) == (s[..], j)
        invariant x == 0 && y == 0
      {
        ghost var before: Table := s[..];
        j := Plus(Plus(key[i % |key|], s[i]), j);
        s[i], s[j] := s[j], s[i];
        assert s[..] == Swap(before, i, j);
      }
    }

    method Apply(buf: seq<byte>) returns (out: seq<byte>)
      requires s.Length == 256
      modifies this, s
      ensures out == Crypt(old(View()), buf)
      ensures View() == After(old(View()), |buf|)
    {
      hide After, KeyByte, Xor;
      ghost var c := View();
      out := [];
      var lx: byte, ly: byte := x, y;
      NextState(c, 0);
      for k := 0 to |buf|
        invariant Cipher(s[..], lx, ly) == After(c, k)
        invariant |out| == k
        invariant forall i :: 0 <= i < k ==> out[i] == Xor(buf[i], KeyByte(c, i))
      {
        NextState(c, k);
        lx := Plus(lx, 1);
        ly := Plus(s[lx], ly);
        ghost var before: Table := s[..];
        s[lx], s[ly] := s[ly], s[lx];
        assert s[..] == Swap(before, lx, ly);
        assert Cipher(s[..], lx, ly) == After(c, k + 1);
        out := out + [Xor(buf[k], s[Plus(s[lx], s[ly])])];
      }
      x, y := lx, ly;
    }
  }
}
