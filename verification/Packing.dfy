/** The binary encoding of contract data (contracts/eosiolib/datastream.hpp): fixed-width integers, variable-length
    integers, strings, vectors, maps and tuples, nested at will. What C++ selects by type is selected here by a shape.
    A tuple is a chain of pairs; a set is a map whose entries carry nothing. */
module Packing {
  import opened Options
  import opened ByteStrings
  import opened Varints

  datatype Shape =
    | Fixed(width: nat)
    | Unsigned
    | Signed
    | Text
    | ListOf(elem: Shape)
    | MapOf(entry: Shape)
    | Both(first: Shape, second: Shape)
    | Nothing

  datatype Value =
    | Num(n: nat)
    | Int(i: int)
    | Chars(s: Bytes)
    | Items(vs: seq<Value>)
    | Entries(es: seq<Value>)
    | Duo(left: Value, right: Value)
    | Nil

  /** The order of map keys. */
  type Order = (Value, Value) -> bool

  predicate Ascending(less: Order, es: seq<Value>) {
    (forall i :: 0 <= i < |es| ==> es[i].Duo?) &&
    forall i :: 0 < i < |es| ==> less(es[i - 1].left, es[i].left)
  }

  ghost predicate HasShape(less: Order, t: Shape, v: Value)
    decreases t
  {
    match t
    case Fixed(width) => v.Num? && v.n < Pow256(width)
    case Unsigned => v.Num? && v.n < TWO32
    case Signed => v.Int? && -TWO30 <= v.i < TWO30
    case Text => v.Chars? && |v.s| < TWO32
    case ListOf(elem) => v.Items? && |v.vs| < TWO32 && forall x <- v.vs :: HasShape(less, elem, x)
    case MapOf(entry) =>
      v.Entries? && entry.Both? && |v.es| < TWO32 && Ascending(less, v.es) &&
        forall x <- v.es :: HasShape(less, entry, x)
    case Both(first, second) => v.Duo? && HasShape(less, first, v.left) && HasShape(less, second, v.right)
    case Nothing => v.Nil?
  }

  /** The bytes of a value; one that does not have the shape has none. */
  function Pack(t: Shape, v: Value): Bytes
    decreases t, 0
  {
    match (t, v)
    case (Fixed(width), Num(n)) => Little(n, width)
    case (Unsigned, Num(n)) => Varint(n)
    case (Signed, Int(i)) => if IsInt32(i) then Varint(Zigzag(i)) else []
    case (Text, Chars(s)) => Varint(|s|) + s
    case (ListOf(elem), Items(vs)) => Varint(|vs|) + PackAll(elem, vs)
    case (MapOf(entry), Entries(es)) => Varint(|es|) + PackAll(entry, es)
    case (Both(first, second), Duo(left, right)) => Pack(first, left) + Pack(second, right)
    case _ => []
  }

  function PackAll(t: Shape, vs: seq<Value>): Bytes
    decreases t, 1 + |vs|
  {
    if vs == [] then [] else Pack(t, vs[0]) + PackAll(t, vs[1..])
  }

  /** Inserts an entry by its key, unless the key is there. */
  function Emplace(less: Order, es: seq<Value>, e: Value): seq<Value>
    requires e.Duo? && forall x <- es :: x.Duo?
    ensures forall x <- Emplace(less, es, e) :: x.Duo?
  {
    if es == [] then [e]
    else
      var n := |es| - 1;
      if less(es[n].left, e.left) then es + [e]
      else if less(e.left, es[n].left) then Emplace(less, es[..n], e) + [es[n]]
      else es
  }

  function EmplaceAll(less: Order, vs: seq<Value>): seq<Value>
    requires forall x <- vs :: x.Duo?
    ensures forall x <- EmplaceAll(less, vs) :: x.Duo?
  {
    if vs == [] then [] else Emplace(less, EmplaceAll(less, vs[..|vs| - 1]), vs[|vs| - 1])
  }

  /** Reads a value off the front and returns what is left; `None` where the code asserts. */
  function Unpack(less: Order, t: Shape, s: Bytes): Option<(Value, Bytes)>
    decreases t, 0
  {
    match t
    case Fixed(width) => if |s| < width then None else Some((Num(Number(s[..width])), s[width..]))
    case Unsigned => (match ReadFrom(s, 0) case None => None case Some((n, r)) => Some((Num(n), r)))
    case Signed => (match ReadSigned(s) case None => None case Some((i, r)) => Some((Int(i), r)))
    case Text => (match ReadFrom(s, 0)
                  case None => None
                  case Some((n, r)) => if |r| < n then None else Some((Chars(r[..n]), r[n..])))
    case ListOf(elem) => (match ReadFrom(s, 0)
                          case None => None
                          case Some((n, r)) =>
                            match UnpackAll(less, elem, n, r)
                            case None => None
                            case Some((vs, q)) => Some((Items(vs), q)))
    case MapOf(entry) => (match ReadFrom(s, 0)
                          case None => None
                          case Some((n, r)) =>
                            match UnpackAll(less, entry, n, r)
                            case None => None
                            case Some((vs, q)) =>
                              if forall x <- vs :: x.Duo? then Some((Entries(EmplaceAll(less, vs)), q)) else None)
    case Both(first, second) => (match Unpack(less, first, s)
                                 case None => None
                                 case Some((left, r)) =>
                                   match Unpack(less, second, r)
                                   case None => None
                                   case Some((right, q)) => Some((Duo(left, right), q)))
    case Nothing => Some((Nil, s))
  }

  function UnpackAll(less: Order, t: Shape, n: nat, s: Bytes): Option<(seq<Value>, Bytes)>
    decreases t, 1 + n
  {
    if n == 0 then Some(([], s))
    else
      match Unpack(less, t, s)
      case None => None
      case Some((v, r)) =>
        match UnpackAll(less, t, n - 1, r)
        case None => None
        case Some((vs, q)) => Some(([v] + vs, q))
  }

  // ---------- round trip ----------

  /** Entries that arrive in order are all appended. */
  lemma {:induction false} InOrder(less: Order, es: seq<Value>)
    requires Ascending(less, es)
    ensures EmplaceAll(less, es) == es
  {
    if es != [] {
      var n := |es| - 1;
      InOrder(less, es[..n]);
      assert es == es[..n] + [es[n]];
      if n > 0 { assert less(es[n - 1].left, es[n].left); }
    }
  }

  // ---------- maps with entries in any order ----------

  predicate Same(less: Order, x: Value, y: Value) { !less(x, y) && !less(y, x) }

  /** A strict weak order, as a map needs. */
  ghost predicate StrictWeak(less: Order) {
    && (forall x, y, z | less(x, y) && less(y, z) :: less(x, z))
    && (forall x, y, z | Same(less, x, y) && less(y, z) :: less(x, z))
    && (forall x, y, z | less(x, y) && Same(less, y, z) :: less(x, z))
  }

  lemma {:induction false} AllAscend(less: Order, es: seq<Value>, i: nat, j: nat)
    requires StrictWeak(less) && Ascending(less, es) && i < j < |es|
    ensures less(es[i].left, es[j].left)
  {
    if i + 1 < j { AllAscend(less, es, i, j - 1); }
  }

  predicate HasKey(less: Order, es: seq<Value>, e: Value)
    requires e.Duo? && forall x <- es :: x.Duo?
  {
    exists i :: 0 <= i < |es| && Same(less, es[i].left, e.left)
  }

  /** An entry is put in its place, unless its key is there already. */
  lemma {:induction false} EmplaceExactly(less: Order, es: seq<Value>, e: Value)
    requires StrictWeak(less) && Ascending(less, es) && e.Duo? && forall x <- es :: x.Duo?
    ensures Ascending(less, Emplace(less, es, e))
    ensures if HasKey(less, es, e) then Emplace(less, es, e) == es
            else forall x :: x in Emplace(less, es, e) <==> x in es || x == e
    decreases |es|
  {
    if es != [] {
      var n := |es| - 1;
      if less(es[n].left, e.left) {
        Beyond(less, es, e);
      } else if less(e.left, es[n].left) {
        EmplaceExactly(less, es[..n], e);
        assert es == es[..n] + [es[n]];
        PutBefore(less, es[..n], e, es[n], Emplace(less, es[..n], e));
      }
    }
  }

  /** An entry behind all others has a new key. */
  lemma Beyond(less: Order, es: seq<Value>, e: Value)
    requires StrictWeak(less) && Ascending(less, es) && e.Duo? && es != [] && less(es[|es| - 1].left, e.left)
    ensures !HasKey(less, es, e) && Ascending(less, es + [e])
  {
    var n := |es| - 1;
    forall i | 0 <= i < |es| ensures !Same(less, es[i].left, e.left) {
      if i < n { AllAscend(less, es, i, n); }
    }
  }

  lemma PutBefore(less: Order, es: seq<Value>, e: Value, last: Value, r: seq<Value>)
    requires StrictWeak(less) && last.Duo? && e.Duo? && Ascending(less, es + [last]) && Ascending(less, r)
    requires less(e.left, last.left) && (forall x <- es :: x.Duo?)
    requires if HasKey(less, es, e) then r == es else forall x :: x in r <==> x in es || x == e
    ensures Ascending(less, r + [last])
    ensures HasKey(less, es + [last], e) <==> HasKey(less, es, e)
  {
    var all := es + [last];
    forall x | x in es ensures less(x.left, last.left) {
      var i :| 0 <= i < |es| && es[i] == x;
      AllAscend(less, all, i, |es|);
    }
    if r != [] { assert r[|r| - 1] in r; }
    if HasKey(less, es, e) {
      var i :| 0 <= i < |es| && Same(less, es[i].left, e.left);
      assert all[i] == es[i];
    }
    if HasKey(less, all, e) {
      var i :| 0 <= i < |all| && Same(less, all[i].left, e.left);
      assert i < |es| && es[i] == all[i];
    }
  }

  /** `x` is the first of the entries `vs` with its key. */
  ghost predicate FirstOfKey(less: Order, vs: seq<Value>, x: Value)
    requires forall v <- vs :: v.Duo?
  {
    exists i :: 0 <= i < |vs| && vs[i] == x && !HasKey(less, vs[..i], x)
  }

  /** A map read from entries in any order is in key order, and holds for every key the first entry with it. */
  lemma {:induction false} ReadMapExactly(less: Order, vs: seq<Value>)
    requires StrictWeak(less) && forall v <- vs :: v.Duo?
    ensures Ascending(less, EmplaceAll(less, vs))
    ensures forall x :: x in EmplaceAll(less, vs) <==> FirstOfKey(less, vs, x)
  {
    if vs != [] {
      var n := |vs| - 1;
      ReadMapExactly(less, vs[..n]);
      EmplaceExactly(less, EmplaceAll(less, vs[..n]), vs[n]);
      SameKeys(less, vs[..n], EmplaceAll(less, vs[..n]), vs[n]);
      FirstSnoc(less, vs[..n], vs[n]);
      assert vs == vs[..n] + [vs[n]];
    }
  }

  /** A key is read exactly if an entry has it. */
  lemma SameKeys(less: Order, vs: seq<Value>, es: seq<Value>, e: Value)
    requires StrictWeak(less) && e.Duo? && (forall v <- vs :: v.Duo?) && (forall x <- es :: x.Duo?)
    requires forall x :: x in es <==> FirstOfKey(less, vs, x)
    ensures HasKey(less, es, e) <==> HasKey(less, vs, e)
  {
    if HasKey(less, es, e) {
      var i :| 0 <= i < |es| && Same(less, es[i].left, e.left);
      assert es[i] in es;
      var j :| 0 <= j < |vs| && vs[j] == es[i] && !HasKey(less, vs[..j], es[i]);
    }
    if HasKey(less, vs, e) {
      var j :| 0 <= j < |vs| && Same(less, vs[j].left, e.left);
      var x := EarliestOfKey(less, vs, j, e);
      assert x in es;
    }
  }

  lemma SameThrough(less: Order, x: Value, y: Value, z: Value)
    requires StrictWeak(less) && Same(less, x, y) && Same(less, y, z)
    ensures Same(less, x, z)
  {
    assert Same(less, y, x) && Same(less, z, y);
  }

  lemma {:induction false} EarliestOfKey(less: Order, vs: seq<Value>, j: nat, e: Value) returns (x: Value)
    requires StrictWeak(less) && e.Duo? && (forall v <- vs :: v.Duo?) && j < |vs| && Same(less, vs[j].left, e.left)
    ensures x.Duo? && FirstOfKey(less, vs, x) && Same(less, x.left, e.left)
    decreases j
  {
    x := vs[j];
    if HasKey(less, vs[..j], x) {
      var i :| 0 <= i < j && Same(less, vs[..j][i].left, x.left);
      SameThrough(less, vs[i].left, x.left, e.left);
      x := EarliestOfKey(less, vs, i, e);
    }
  }

  lemma FirstSnoc(less: Order, vs: seq<Value>, e: Value)
    requires e.Duo? && forall v <- vs :: v.Duo?
    ensures forall x :: FirstOfKey(less, vs + [e], x) <==>
                        FirstOfKey(less, vs, x) || (x == e && !HasKey(less, vs, e))
  {
    var all := vs + [e];
    assert all[..|vs|] == vs;
    forall x ensures FirstOfKey(less, all, x) <==> FirstOfKey(less, vs, x) || (x == e && !HasKey(less, vs, e)) {
      if FirstOfKey(less, all, x) {
        var i :| 0 <= i < |all| && all[i] == x && !HasKey(less, all[..i], x);
        if i < |vs| { assert all[..i] == vs[..i]; }
      }
      if FirstOfKey(less, vs, x) {
        var i :| 0 <= i < |vs| && vs[i] == x && !HasKey(less, vs[..i], x);
        assert all[..i] == vs[..i] && all[i] == x;
      }
      if x == e && !HasKey(less, vs, e) { assert all[|vs|] == x; }
    }
  }

  // ---------- the parts of the round trip ----------

  lemma FixedBack(less: Order, width: nat, n: nat, s: Bytes)
    requires n < Pow256(width)
    ensures Unpack(less, Fixed(width), Little(n, width) + s) == Some((Num(n), s))
  {
    NumberOfLittle(n, width);
    var w := Little(n, width) + s;
    assert w[..width] == Little(n, width) && w[width..] == s;
  }

  lemma UnsignedBack(less: Order, n: nat, s: Bytes)
    requires n < TWO32
    ensures Unpack(less, Unsigned, Varint(n) + s) == Some((Num(n), s))
  {
    UnsignedRoundTrip(n, s);
  }

  lemma SignedBack(less: Order, i: int, s: Bytes)
    requires -TWO30 <= i < TWO30
    ensures Unpack(less, Signed, Varint(Zigzag(i)) + s) == Some((Int(i), s))
  {
    SignedBytes(i, s);
  }

  lemma TextBack(less: Order, x: Bytes, s: Bytes)
    requires |x| < TWO32
    ensures Unpack(less, Text, Varint(|x|) + x + s) == Some((Chars(x), s))
  {
    UnsignedRoundTrip(|x|, x + s);
    Joins(Varint(|x|), x, s);
    assert (x + s)[..|x|] == x && (x + s)[|x|..] == s;
  }

  lemma ListBack(less: Order, elem: Shape, vs: seq<Value>, s: Bytes, body: Bytes)
    requires |vs| < TWO32 && UnpackAll(less, elem, |vs|, body + s) == Some((vs, s))
    ensures Unpack(less, ListOf(elem), Varint(|vs|) + body + s) == Some((Items(vs), s))
  {
    UnsignedRoundTrip(|vs|, body + s);
    Joins(Varint(|vs|), body, s);
  }

  lemma {:induction false} MapBack(less: Order, entry: Shape, es: seq<Value>, s: Bytes, body: Bytes)
    requires |es| < TWO32 && Ascending(less, es) && UnpackAll(less, entry, |es|, body + s) == Some((es, s))
    ensures Unpack(less, MapOf(entry), Varint(|es|) + body + s) == Some((Entries(es), s))
  {
    UnsignedRoundTrip(|es|, body + s);
    Joins(Varint(|es|), body, s);
    InOrder(less, es);
    MapRead(less, entry, |es|, es, Varint(|es|) + body + s, body + s, s);
  }

  lemma {:induction false} MapRead(less: Order, entry: Shape, n: nat, es: seq<Value>, w: Bytes, r: Bytes, s: Bytes)
    requires ReadFrom(w, 0) == Some((n, r)) && UnpackAll(less, entry, n, r) == Some((es, s))
    requires (forall x <- es :: x.Duo?) && EmplaceAll(less, es) == es
    ensures Unpack(less, MapOf(entry), w) == Some((Entries(es), s))
  {
  }

  lemma {:induction false} BothBack(less: Order, first: Shape, second: Shape, left: Value, right: Value, w: Bytes,
                                    r: Bytes, s: Bytes)
    requires Unpack(less, first, w) == Some((left, r)) && Unpack(less, second, r) == Some((right, s))
    ensures Unpack(less, Both(first, second), w) == Some((Duo(left, right), s))
  {
  }

  lemma PackBoth(first: Shape, second: Shape, left: Value, right: Value, s: Bytes)
    ensures Pack(Both(first, second), Duo(left, right)) + s == Pack(first, left) + (Pack(second, right) + s)
  {
  }

  lemma {:induction false} MoreRead(less: Order, t: Shape, v: Value, vs: seq<Value>, n: nat, w: Bytes, r: Bytes,
                                    s: Bytes)
    requires Unpack(less, t, w) == Some((v, r)) && UnpackAll(less, t, n, r) == Some((vs, s))
    ensures UnpackAll(less, t, n + 1, w) == Some(([v] + vs, s))
  {
  }

  /** Unpacking the bytes of a value, whatever follows them, returns the value and consumes exactly its bytes. */
  lemma {:induction false} RoundTrip(less: Order, t: Shape, v: Value, s: Bytes)
    requires HasShape(less, t, v)
    ensures Unpack(less, t, Pack(t, v) + s) == Some((v, s))
    decreases t, 0
  {
    match t
    case Fixed(width) => FixedBack(less, width, v.n, s);
    case Unsigned => UnsignedBack(less, v.n, s);
    case Signed => SignedBack(less, v.i, s);
    case Text => TextBack(less, v.s, s);
    case ListOf(elem) =>
      RoundTripAll(less, elem, v.vs, s);
      ListBack(less, elem, v.vs, s, PackAll(elem, v.vs));
    case MapOf(entry) =>
      RoundTripAll(less, entry, v.es, s);
      MapBack(less, entry, v.es, s, PackAll(entry, v.es));
    case Both(first, second) =>
      RoundTrip(less, first, v.left, Pack(second, v.right) + s);
      RoundTrip(less, second, v.right, s);
      PackBoth(first, second, v.left, v.right, s);
      BothBack(less, first, second, v.left, v.right, Pack(t, v) + s, Pack(second, v.right) + s, s);
    case Nothing => assert Pack(t, v) + s == s;
  }

  lemma {:induction false} RoundTripAll(less: Order, t: Shape, vs: seq<Value>, s: Bytes)
    requires forall x <- vs :: HasShape(less, t, x)
    ensures UnpackAll(less, t, |vs|, PackAll(t, vs) + s) == Some((vs, s))
    decreases t, 1 + |vs|
  {
    if vs == [] {
      assert PackAll(t, vs) + s == s;
    } else {
      var b := PackAll(t, vs[1..]);
      RoundTrip(less, t, vs[0], b + s);
      RoundTripAll(less, t, vs[1..], s);
      Joins(Pack(t, vs[0]), b, s);
      MoreRead(less, t, vs[0], vs[1..], |vs| - 1, PackAll(t, vs) + s, b + s, s);
      assert [vs[0]] + vs[1..] == vs;
    }
  }

  /** A map of one entry on the wire: the count, the key 300 in two bytes, the length of the text, the text, and a
      16-bit number, low byte first. */
  lemma WireExample(key: Value, text: Value, number: Value, entry: Value)
    requires key == Num(300) && text == Chars([7, 8]) && number == Num(0x0102)
    requires entry == Duo(key, Duo(text, number))
    ensures Pack(MapOf(Both(Unsigned, Both(Text, Fixed(2)))), Entries([entry])) == [1, 172, 2, 2, 7, 8, 2, 1]
  {
    var right := Both(Text, Fixed(2));
    var shape := Both(Unsigned, right);
    WireParts(key, text, number);
    assert Pack(right, entry.right) == Pack(Text, text) + Pack(Fixed(2), number);
    assert Pack(shape, entry) == Pack(Unsigned, key) + Pack(right, entry.right);
    WireOne(shape, entry);
  }

  lemma WireParts(key: Value, text: Value, number: Value)
    requires key == Num(300) && text == Chars([7, 8]) && number == Num(0x0102)
    ensures Pack(Unsigned, key) == [172, 2] && Pack(Text, text) == [2, 7, 8] && Pack(Fixed(2), number) == [2, 1]
  {
    assert Varint(300) == [172] + Varint(2) && Varint(2) == [2];
    assert Little(0x0102, 2) == [2] + Little(1, 1) && Little(1, 1) == [1] + Little(0, 0);
  }

  lemma WireOne(shape: Shape, entry: Value)
    ensures Pack(MapOf(shape), Entries([entry])) == [1] + Pack(shape, entry)
  {
    assert [entry][1..] == [] && PackAll(shape, [entry]) == Pack(shape, entry) + PackAll(shape, []);
    assert Varint(1) == [1];
  }
}
