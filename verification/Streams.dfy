/** The data streams that the encoding runs over (contracts/eosiolib/datastream.hpp, varint.hpp): one that counts, one
    that writes into a buffer of fixed size, one that reads. A failed assertion ends the run, so what a failed write
    leaves behind is not described. */
module Streams {
  import opened Options
  import opened ByteStrings
  import opened Varints
  import opened Packing

  /** datastream<size_t>: counts the bytes written to it, in 32 bits. */
  class Counter {
    var size: nat

    constructor ()
      ensures size == 0
    {
      size := 0;
    }

    method Skip(n: nat)
      modifies this
      ensures size == (old(size) + n) % TWO32
    {
      size := (size + n) % TWO32;
    }

    method PutVarint(n: nat)
      requires size < TWO32
      modifies this
      ensures size == (old(size) + |Varint(n)|) % TWO32
    {
      var val, more := n, true;
      ghost var done: nat := 0;
      while more
        invariant done + (if more then |Varint(val)| else 0) == |Varint(n)| && size == (old(size) + done) % TWO32
        decreases if more then 1 + val else 0
      {
        val := val / 128;
        Skip(1);
        Wraps(old(size), done, 1);
        done := done + 1;
        more := val > 0;
      }
    }

    method Put(t: Shape, v: Value)
      requires size < TWO32
      modifies this
      ensures size == (old(size) + |Pack(t, v)|) % TWO32
      decreases t, 1
    {
      match (t, v)
      case (Fixed(width), Num(n)) => Skip(width);
      case (Unsigned, Num(n)) => PutVarint(n);
      case (Signed, Int(i)) => if IsInt32(i) { PutVarint(Zigzag(i)); }
      case (Text, Chars(s)) => PutText(s);
      case (ListOf(elem), Items(vs)) => PutCounted(elem, vs);
      case (MapOf(entry), Entries(es)) => PutCounted(entry, es);
      case (Both(first, second), Duo(left, right)) => PutBoth(t, v);
      case _ =>
    }

    method PutText(s: Bytes)
      requires size < TWO32
      modifies this
      ensures size == (old(size) + (|Varint(|s|)| + |s|)) % TWO32
    {
      PutVarint(|s|);
      Wraps(old(size), |Varint(|s|)|, |s|);
      Skip(|s|);
    }

    method PutCounted(t: Shape, vs: seq<Value>)
      requires size < TWO32
      modifies this
      ensures size == (old(size) + (|Varint(|vs|)| + |PackAll(t, vs)|)) % TWO32
      decreases t, 3
    {
      PutVarint(|vs|);
      Wraps(old(size), |Varint(|vs|)|, |PackAll(t, vs)|);
      PutAll(t, vs);
    }

    method PutBoth(t: Shape, v: Value)
      requires t.Both? && v.Duo? && size < TWO32
      modifies this
      ensures size == (old(size) + (|Pack(t.first, v.left)| + |Pack(t.second, v.right)|)) % TWO32
      decreases t, 0
    {
      Put(t.first, v.left);
      Wraps(old(size), |Pack(t.first, v.left)|, |Pack(t.second, v.right)|);
      Put(t.second, v.right);
    }

    method PutAll(t: Shape, vs: seq<Value>)
      requires size < TWO32
      modifies this
      ensures size == (old(size) + |PackAll(t, vs)|) % TWO32
      decreases t, 2
    {
      ghost var done: Bytes := [];
      for i := 0 to |vs|
        invariant size < TWO32 && size == (old(size) + |done|) % TWO32
        invariant done + PackAll(t, vs[i..]) == PackAll(t, vs)
      {
        NextItem(done, t, vs, i, PackAll(t, vs));
        Wraps(old(size), |done|, |Pack(t, vs[i])|);
        Put(t, vs[i]);
        done := done + Pack(t, vs[i]);
      }
    }
  }

  lemma Wraps(a: nat, b: nat, c: nat)
    ensures ((a + b) % TWO32 + c) % TWO32 == (a + (b + c)) % TWO32
  {
    var x := a + b;
    assert x == x / TWO32 * TWO32 + x % TWO32;
    ModShift(x / TWO32, x % TWO32 + c);
  }

  lemma ModShift(k: int, r: int)
    ensures (k * TWO32 + r) % TWO32 == r % TWO32
  {
  }

  // ---------- writing ----------

  /** The test of `write`: the room left and the size are compared as signed 32-bit integers. */
  predicate WriteTest(room: nat, size: nat) { Int32(room) >= Int32(size) }

  /** It says whether the bytes fit exactly when room and size are on the same side of 2^31; on different sides, a
      size too large passes and a size that fits does not. */
  lemma WriteTestExact(room: nat, size: nat)
    requires room < TWO32 && size < TWO32
    ensures (WriteTest(room, size) <==> size <= room) <==> (room < TWO31 <==> size < TWO31)
    ensures room < TWO31 <= size ==> WriteTest(room, size) && room < size
    ensures size < TWO31 <= room ==> !WriteTest(room, size) && size <= room
  {
  }

  lemma SmallTestExact(room: nat, size: nat)
    requires size < TWO31
    ensures room < TWO31 ==> (WriteTest(room, size) <==> size <= room)
    ensures TWO31 <= room < TWO32 ==> !WriteTest(room, size)
  {
  }

  /** A write of 2^31 bytes is let through by a buffer of sixteen. */
  lemma WriteCanOverrun() returns (room: nat, size: nat)
    ensures room == 16 && size == TWO31 && WriteTest(room, size) && size > room
  {
    room, size := 16, TWO31;
    WriteTestExact(room, size);
  }

  /** A write succeeds, is refused by the test, or is let through and leaves the buffer. */
  datatype Outcome = Written | Refused | Overran

  /** What becomes of writing `n` bytes at `at` into a buffer of `size` bytes: only what fits is written; buffers
      below 2^31 bytes take all that fits; and only as many bytes can leave the buffer. */
  predicate Honest(r: Outcome, at: nat, n: nat, size: nat) {
    && (r == Written ==> at + n <= size)
    && (size < TWO31 && at + n <= size ==> r == Written)
    && (r == Overran ==> TWO31 <= n)
  }

  /** A buffer with 2^31 bytes of room takes nothing. */
  predicate Stuck(r: Outcome, at: nat, n: nat, size: nat) {
    r == Written && at <= size && TWO31 <= size - at < TWO32 ==> n == 0
  }

  /** Fixed-size values are below 2^31 bytes. */
  predicate Narrow(t: Shape) {
    match t
    case Fixed(width) => width < TWO31
    case ListOf(elem) => Narrow(elem)
    case MapOf(entry) => Narrow(entry)
    case Both(first, second) => Narrow(first) && Narrow(second)
    case _ => true
  }

  /** The bytes of a varint still to be written. */
  function Left(val: nat, more: bool): Bytes { if more then Varint(val) else [] }

  lemma NextByte(done: Bytes, digits: nat, b: Byte, val: nat, goal: Bytes)
    requires done + Varint(digits) == goal && val == digits / 128
    requires b == digits % 128 + if val > 0 then 128 else 0
    ensures done + [b] + Left(val, val > 0) == goal && |done| + 1 <= |goal|
  {
    assert Varint(digits) == [b] + Left(val, val > 0);
  }

  /** datastream<char*>: writes into a buffer. A write that overruns it ends the run here. */
  class Writer {
    const data: array<Byte>
    var pos: nat

    ghost predicate Valid()
      reads this
    {
      pos <= data.Length
    }

    ghost function Contents(): Bytes
      requires Valid()
      reads this, data
    {
      data[..pos]
    }

    constructor (data: array<Byte>)
      ensures this.data == data && pos == 0 && Valid()
    {
      this.data, pos := data, 0;
    }

    method Write(d: Bytes) returns (r: Outcome)
      requires Valid()
      modifies this`pos, data
      ensures Valid() && Honest(r, old(pos), |d|, data.Length)
      ensures r == Refused <==> !WriteTest(data.Length - old(pos), |d|)
      ensures |d| < TWO31 ==> Stuck(r, old(pos), 1, data.Length)
      ensures r == Written ==> Contents() == old(Contents()) + d
    {
      if |d| < TWO31 { SmallTestExact(data.Length - pos, |d|); }
      if !WriteTest(data.Length - pos, |d|) { return Refused; }
      if data.Length - pos < |d| { return Overran; }
      forall i | 0 <= i < |d| { data[pos + i] := d[i]; }
      pos := pos + |d|;
      return Written;
    }

    method PutVarint(n: nat) returns (r: Outcome)
      requires Valid()
      modifies this`pos, data
      ensures Valid() && r != Overran && Honest(r, old(pos), |Varint(n)|, data.Length)
      ensures Stuck(r, old(pos), 1, data.Length)
      ensures r == Written ==> Contents() == old(Contents()) + Varint(n)
    {
      var val, more := n, true;
      ghost var goal := Contents() + Varint(n);
      r := Written;
      while more
        invariant Valid() && r == Written && Contents() + Left(val, more) == goal
        invariant (pos == old(pos) && more) || Stuck(Written, old(pos), 1, data.Length)
        decreases if more then 1 + val else 0
      {
        ghost var done, digits := Contents(), val;
        var b := val % 128;
        val := val / 128;
        if val > 0 { b := b + 128; }
        NextByte(done, digits, b, val, goal);
        r := Write([b]);
        if r != Written { return; }
        more := val > 0;
      }
    }

    /** Writes a value. */
    method Put(t: Shape, v: Value) returns (r: Outcome)
      requires Valid()
      modifies this`pos, data
      ensures Valid() && Honest(r, old(pos), |Pack(t, v)|, data.Length)
      ensures Narrow(t) ==> Stuck(r, old(pos), |Pack(t, v)|, data.Length)
      ensures r == Written ==> Contents() == old(Contents()) + Pack(t, v)
      decreases t, 1
    {
      match (t, v)
      case (Fixed(width), Num(n)) => r := Write(Little(n, width));
      case (Unsigned, Num(n)) => r := PutVarint(n);
      case (Signed, Int(i)) => r := Written; if IsInt32(i) { r := PutVarint(Zigzag(i)); }
      case (Text, Chars(s)) => r := PutText(s);
      case (ListOf(elem), Items(vs)) => r := PutCounted(elem, vs);
      case (MapOf(entry), Entries(es)) => r := PutCounted(entry, es);
      case (Both(first, second), Duo(left, right)) => r := PutBoth(t, v);
      case _ => r := Written;
    }

    method PutText(s: Bytes) returns (r: Outcome)
      requires Valid()
      modifies this`pos, data
      ensures Valid() && Honest(r, old(pos), |Varint(|s|)| + |s|, data.Length)
      ensures Stuck(r, old(pos), 1, data.Length)
      ensures r == Written ==> Contents() == old(Contents()) + (Varint(|s|) + s)
    {
      r := PutVarint(|s|);
      if r == Written { r := Write(s); }
    }

    method PutCounted(t: Shape, vs: seq<Value>) returns (r: Outcome)
      requires Valid()
      modifies this`pos, data
      ensures Valid() && Honest(r, old(pos), |Varint(|vs|)| + |PackAll(t, vs)|, data.Length)
      ensures Stuck(r, old(pos), 1, data.Length)
      ensures r == Written ==> Contents() == old(Contents()) + (Varint(|vs|) + PackAll(t, vs))
      decreases t, 3
    {
      r := PutVarint(|vs|);
      if r == Written { r := PutAll(t, vs); }
    }

    method PutBoth(t: Shape, v: Value) returns (r: Outcome)
      requires t.Both? && v.Duo? && Valid()
      modifies this`pos, data
      ensures Valid() && Honest(r, old(pos), |Pack(t.first, v.left)| + |Pack(t.second, v.right)|, data.Length)
      ensures Narrow(t.first) && Narrow(t.second) ==>
                Stuck(r, old(pos), |Pack(t.first, v.left)| + |Pack(t.second, v.right)|, data.Length)
      ensures r == Written ==> Contents() == old(Contents()) + (Pack(t.first, v.left) + Pack(t.second, v.right))
      decreases t, 0
    {
      r := Put(t.first, v.left);
      if r == Written { r := Put(t.second, v.right); }
    }

    method PutAll(t: Shape, vs: seq<Value>) returns (r: Outcome)
      requires Valid()
      modifies this`pos, data
      ensures Valid() && Honest(r, old(pos), |PackAll(t, vs)|, data.Length)
      ensures r == Written ==> Contents() == old(Contents()) + PackAll(t, vs)
      decreases t, 2
    {
      ghost var goal := Contents() + PackAll(t, vs);
      for i := 0 to |vs|
        invariant Valid() && old(pos) <= pos && Contents() + PackAll(t, vs[i..]) == goal
      {
        NextItem(Contents(), t, vs, i, goal);
        r := Put(t, vs[i]);
        if r != Written { return; }
      }
      return Written;
    }
  }

  lemma NextItem(done: Bytes, t: Shape, vs: seq<Value>, i: nat, goal: Bytes)
    requires i < |vs| && done + PackAll(t, vs[i..]) == goal
    ensures done + Pack(t, vs[i]) + PackAll(t, vs[i + 1..]) == goal && |done| + |Pack(t, vs[i])| <= |goal|
  {
    assert vs[i..][1..] == vs[i + 1..];
  }

  /** pack: a buffer of the counted size takes exactly the bytes of the value, if they are fewer than 2^31; otherwise
      the count is wrong or the writer refuses. */
  method PackBytes(t: Shape, v: Value) returns (ok: bool, bytes: Bytes)
    ensures ok ==> bytes == Pack(t, v)
    ensures |Pack(t, v)| < TWO31 ==> ok
    ensures Narrow(t) ==> (ok <==> |Pack(t, v)| < TWO31)
  {
    var counter := new Counter();
    counter.Put(t, v);
    var buffer := new Byte[counter.size];
    var writer := new Writer(buffer);
    var r := writer.Put(t, v);
    ok, bytes := r == Written, buffer[..];
  }

  // ---------- reading ----------

  /** What is read from here on, added to what was read before. */
  function Added(acc: nat, r: Option<(nat, Bytes)>): Option<(nat, Bytes)> {
    match r
    case None => None
    case Some((n, rest)) => Some((acc + n, rest))
  }

  /** One byte of a varint is read. */
  lemma ReadTurn(s: Bytes, b: Byte, rest: Bytes, v: nat, i: nat, goal: Option<(nat, Bytes)>)
    requires s == [b] + rest && i < 5 && Added(v, ReadFrom(s, i)) == goal
    ensures b < 128 ==> goal == Some((v + Part(b, i), rest))
    ensures b >= 128 && i == 4 ==> goal == None
    ensures b >= 128 && i < 4 ==> Added(v + Part(b, i), ReadFrom(rest, i + 1)) == goal
  {
    assert s[1..] == rest;
  }

  function Prepended(acc: seq<Value>, r: Option<(seq<Value>, Bytes)>): Option<(seq<Value>, Bytes)> {
    match r
    case None => None
    case Some((vs, rest)) => Some((acc + vs, rest))
  }

  /** A value read, with what is left; or nothing. */
  function With<T>(r: Option<T>, rest: Bytes): Option<(T, Bytes)> { if r.Some? then Some((r.value, rest)) else None }

  /** datastream<const char*>: reads from a buffer and never past its end. */
  class Reader {
    const data: Bytes
    const less: Order
    var pos: nat

    ghost predicate Valid()
      reads this
    {
      pos <= |data|
    }

    ghost function Rest(): Bytes
      requires Valid()
      reads this
    {
      data[pos..]
    }

    constructor (data: Bytes, less: Order)
      ensures this.data == data && this.less == less && Valid() && Rest() == data
    {
      this.data, this.less, pos := data, less, 0;
    }

    method Read(n: nat) returns (r: Option<Bytes>)
      requires Valid()
      modifies this
      ensures Valid() && (r.Some? <==> n <= |old(Rest())|)
      ensures r.Some? ==> r.value == old(Rest())[..n] && Rest() == old(Rest())[n..]
    {
      if |data| - pos < n { return None; }
      r := Some(data[pos..pos + n]);
      pos := pos + n;
    }

    method GetVarint() returns (r: Option<nat>)
      requires Valid()
      modifies this
      ensures Valid()
      ensures ReadFrom(old(Rest()), 0) == With(r, Rest())
    {
      ghost var goal := ReadFrom(Rest(), 0);
      var v: nat, i: nat, more := 0, 0, true;
      while more
        invariant Valid() && i <= 5 && (more ==> i < 5)
        invariant more ==> Added(v, ReadFrom(Rest(), i)) == goal
        invariant !more ==> goal == Some((v, Rest()))
        decreases if more then 6 - i else 0
      {
        if pos >= |data| { return None; }
        var b := data[pos];
        ReadTurn(Rest(), b, data[pos + 1..], v, i, goal);
        pos := pos + 1;
        if b >= 128 && i == 4 { return None; }
        v := v + Part(b, i);
        i := i + 1;
        more := b >= 128;
      }
      return Some(v);
    }

    /** Reads a value of the given shape. */
    method Get(t: Shape) returns (r: Option<Value>)
      requires Valid()
      modifies this
      ensures Valid() && Unpack(less, t, old(Rest())) == With(r, Rest())
      decreases t, 1
    {
      match t
      case Fixed(width) => r := GetFixed(width);
      case Unsigned => r := GetUnsigned();
      case Signed => r := GetSigned();
      case Text => r := GetText();
      case ListOf(elem) => r := GetList(t);
      case MapOf(entry) => r := GetMap(t);
      case Both(first, second) => r := GetBoth(t);
      case Nothing => r := Some(Nil);
    }

    method GetFixed(width: nat) returns (r: Option<Value>)
      requires Valid()
      modifies this
      ensures Valid() && Unpack(less, Fixed(width), old(Rest())) == With(r, Rest())
    {
      var d := Read(width);
      if d.None? { return None; }
      r := Some(Num(Number(d.value)));
    }

    method GetUnsigned() returns (r: Option<Value>)
      requires Valid()
      modifies this
      ensures Valid() && Unpack(less, Unsigned, old(Rest())) == With(r, Rest())
    {
      var n := GetVarint();
      if n.None? { return None; }
      r := Some(Num(n.value));
    }

    method GetSigned() returns (r: Option<Value>)
      requires Valid()
      modifies this
      ensures Valid() && Unpack(less, Signed, old(Rest())) == With(r, Rest())
    {
      var n := GetVarint();
      if n.None? { return None; }
      r := Some(Int(Unzigzag(n.value % TWO32)));
    }

    method GetText() returns (r: Option<Value>)
      requires Valid()
      modifies this
      ensures Valid() && Unpack(less, Text, old(Rest())) == With(r, Rest())
    {
      var n := GetVarint();
      if n.None? { return None; }
      var d := Read(n.value);
      if d.None? { return None; }
      r := Some(Chars(d.value));
    }

    method GetList(t: Shape) returns (r: Option<Value>)
      requires t.ListOf? && Valid()
      modifies this
      ensures Valid() && Unpack(less, t, old(Rest())) == With(r, Rest())
      decreases t, 0
    {
      var n := GetVarint();
      if n.None? { return None; }
      var vs := GetAll(t.elem, n.value);
      if vs.None? { return None; }
      r := Some(Items(vs.value));
    }

    /** Entries are inserted by key as they are read. */
    method GetMap(t: Shape) returns (r: Option<Value>)
      requires t.MapOf? && Valid()
      modifies this
      ensures Valid() && Unpack(less, t, old(Rest())) == With(r, Rest())
      decreases t, 0
    {
      var n := GetVarint();
      if n.None? { return None; }
      var vs := GetAll(t.entry, n.value);
      if vs.None? || exists x <- vs.value :: !x.Duo? { return None; }
      r := Some(Entries(EmplaceAll(less, vs.value)));
    }

    method GetBoth(t: Shape) returns (r: Option<Value>)
      requires t.Both? && Valid()
      modifies this
      ensures Valid() && Unpack(less, t, old(Rest())) == With(r, Rest())
      decreases t, 0
    {
      var left := Get(t.first);
      if left.None? { return None; }
      var right := Get(t.second);
      if right.None? { return None; }
      r := Some(Duo(left.value, right.value));
    }

    method GetAll(t: Shape, n: nat) returns (r: Option<seq<Value>>)
      requires Valid()
      modifies this
      ensures Valid() && UnpackAll(less, t, n, old(Rest())) == With(r, Rest())
      decreases t, 2
    {
      ghost var goal := UnpackAll(less, t, n, Rest());
      var vs: seq<Value> := [];
      NothingPrepended(goal);
      for i := 0 to n
        invariant Valid() && Prepended(vs, UnpackAll(less, t, n - i, Rest())) == goal
      {
        NextRead(less, t, n - i, Rest(), vs, goal);
        var v := Get(t);
        if v.None? { return None; }
        vs := vs + [v.value];
      }
      assert vs + [] == vs;
      return Some(vs);
    }
  }

  lemma NothingPrepended(r: Option<(seq<Value>, Bytes)>)
    ensures Prepended([], r) == r
  {
    if r.Some? { assert [] + r.value.0 == r.value.0; }
  }

  lemma NextRead(less: Order, t: Shape, n: nat, s: Bytes, acc: seq<Value>, goal: Option<(seq<Value>, Bytes)>)
    requires n > 0 && Prepended(acc, UnpackAll(less, t, n, s)) == goal
    ensures Unpack(less, t, s) == None ==> goal == None
    ensures Unpack(less, t, s).Some? ==>
      Prepended(acc + [Unpack(less, t, s).value.0], UnpackAll(less, t, n - 1, Unpack(less, t, s).value.1)) == goal
  {
    if Unpack(less, t, s).Some? {
      var v := Unpack(less, t, s).value;
      var rest := UnpackAll(less, t, n - 1, v.1);
      if rest.Some? { assert acc + ([v.0] + rest.value.0) == acc + [v.0] + rest.value.0; }
    }
  }

  /** Packing and unpacking through the streams returns the value and leaves what followed it, if the value has fewer
      than 2^31 bytes; otherwise packing fails. */
  method PackThenUnpack(less: Order, t: Shape, v: Value, suffix: Bytes) returns (r: Option<Value>, left: nat)
    requires HasShape(less, t, v)
    ensures |Pack(t, v)| < TWO31 ==> r == Some(v) && left == |suffix|
    ensures Narrow(t) && |Pack(t, v)| >= TWO31 ==> r == None
  {
    var ok, bytes := PackBytes(t, v);
    if !ok { return None, 0; }
    var reader := new Reader(bytes + suffix, less);
    r := reader.Get(t);
    RoundTrip(less, t, v, suffix);
    left := |reader.data| - reader.pos;
  }
}
