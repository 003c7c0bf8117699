/** The part of CBOR (RFC 8949) that WebAuthn needs: integers, byte and text strings, arrays,
    maps, booleans and null, of definite length, at most sixteen levels deep. */
module Cbor {
  import opened Wrappers
  import opened Powers
  import opened Bytes
  import opened Utf8

  /** Texts are kept as their bytes. */
  datatype Key = IntKey(n: int) | TextKey(text: seq<Byte>)

  datatype Value =
    | Int(n: int)
    | Bytes(bytes: seq<Byte>)
    | Text(text: seq<Byte>)
    | List(items: seq<Value>)
    | Map(entries: map<Key, Value>)
    | Bool(b: bool)
    | Null

  const MAX_DEPTH := 16
  const INT_LIMIT: nat := 0x8000_0000_0000_0000

  // ---- What decoding means, on the bytes still to read ----

  /** Length of the argument that follows a head (section 3 of RFC 8949). */
  function ArgLen(info: nat): Option<nat> {
    if info < 24 then Some(0)
    else if info == 24 then Some(1)
    else if info == 25 then Some(2)
    else if info == 26 then Some(4)
    else if info == 27 then Some(8)
    else None
  }

  function ReadArg(s: seq<Byte>, info: nat): (r: Option<(nat, seq<Byte>)>)
    ensures r.Some? ==> |r.value.1| <= |s|
  {
    if info < 24 then Some((info, s))
    else if ArgLen(info).None? || |s| < ArgLen(info).value then None
    else
      var k := ArgLen(info).value;
      Some((ValueOf(s[..k]), s[k..]))
  }

  function AsKey(v: Value): Option<Key> {
    match v
    case Int(n) => Some(IntKey(n))
    case Text(t) => Some(TextKey(t))
    case _ => None
  }

  /** The first value of `s` and the bytes after it; `depth` values are already open. */
  function Decode(s: seq<Byte>, depth: nat): (r: Option<(Value, seq<Byte>)>)
    ensures r.Some? ==> |r.value.1| < |s|
    decreases if depth < MAX_DEPTH then MAX_DEPTH - depth else 0, 0, 1
  {
    if s == [] || depth >= MAX_DEPTH then None
    else
      var major, info := s[0] / 32, s[0] % 32;
      if major == 7 then
        if info == 20 then Some((Bool(false), s[1..]))
        else if info == 21 then Some((Bool(true), s[1..]))
        else if info == 22 || info == 23 then Some((Null, s[1..]))
        else None
      else
        var arg := ReadArg(s[1..], info);
        if arg.None? then None
        else
          var (n, rest) := arg.value;
          if major == 0 then (if n >= INT_LIMIT then None else Some((Int(n), rest)))
          else if major == 1 then (if n >= INT_LIMIT then None else Some((Int(-1 - n), rest)))
          else if major == 2 then (if n > |rest| then None else Some((Bytes(rest[..n]), rest[n..])))
          else if major == 3 then
            (if n > |rest| || !WellFormed(rest[..n]) then None else Some((Text(rest[..n]), rest[n..])))
          else if major == 4 then (if n > |rest| then None else DecodeItems(rest, depth + 1, n, []))
          else if major == 5 then (if n > |rest| / 2 then None else DecodePairs(rest, depth + 1, n, map[]))
          else Decode(rest, depth + 1)
  }

  function DecodeItems(s: seq<Byte>, depth: nat, n: nat, read: seq<Value>): (r: Option<(Value, seq<Byte>)>)
    ensures r.Some? ==> |r.value.1| + n <= |s|
    decreases if depth < MAX_DEPTH then MAX_DEPTH - depth else 0, n, 2
  {
    if n == 0 then Some((List(read), s))
    else
      var v := Decode(s, depth);
      if v.None? then None else DecodeItems(v.value.1, depth, n - 1, read + [v.value.0])
  }

  function DecodePairs(s: seq<Byte>, depth: nat, n: nat, read: map<Key, Value>): (r: Option<(Value, seq<Byte>)>)
    ensures r.Some? ==> |r.value.1| + 2 * n <= |s|
    decreases if depth < MAX_DEPTH then MAX_DEPTH - depth else 0, n, 2
  {
    if n == 0 then Some((Map(read), s))
    else
      var k := Decode(s, depth);
      if k.None? || AsKey(k.value.0).None? || AsKey(k.value.0).value in read then None
      else
        var v := Decode(k.value.1, depth);
        if v.None? then None
        else DecodePairs(v.value.1, depth, n - 1, read[AsKey(k.value.0).value := v.value.0])
  }

  // ---- The decoder ----

  class Decoder {
    const b: seq<Byte>
    var pos: nat
    var depth: nat
    // Values built so far, map keys included.
    ghost var built: nat

    ghost predicate Valid()
      reads this
    {
      pos <= |b|
    }

    constructor (b: seq<Byte>)
      ensures Valid() && this.b == b && pos == 0 && depth == 0 && built == 0
    {
      this.b := b;
      pos, depth, built := 0, 0, 0;
    }

    method UInt(info: nat) returns (r: Option<nat>)
      requires Valid()
      modifies this`pos
      ensures Valid() && old(pos) <= pos
      ensures r.Some? ==> ReadArg(b[old(pos)..], info) == Some((r.value, b[pos..]))
      ensures r.None? ==> ReadArg(b[old(pos)..], info) == None && pos == old(pos)
      ensures r.Some? && info >= 24 ==> r.value < 0x1_0000_0000_0000_0000
    {
      if info < 24 {
        return Some(info);
      }
      var len := ArgLen(info);
      if len.None? || |b| - pos < len.value {
        return None;
      }
      var n, v: nat := len.value, 0;
      ghost var arg := b[pos..][..n];
      for i := 0 to n
        invariant v == ValueOf(arg[..i])
      {
        assert arg[..i + 1][..i] == arg[..i];
        v := v * 256 + b[pos + i];
      }
      assert arg[..n] == arg;
      ValueBound(arg);
      Pow2Wide(n);
      pos := pos + n;
      r := Some(v);
    }

    /** The value at `pos`, or nothing. Every byte read is inside `b`, and no more values are
        built than bytes are passed, whether or not decoding succeeds. */
    method ReadValue() returns (r: Option<Value>)
      requires Valid() && depth <= MAX_DEPTH
      modifies this
      ensures Valid() && depth == old(depth) && old(pos) <= pos
      ensures built - old(built) <= pos - old(pos)
      ensures r.Some? ==> Decode(b[old(pos)..], old(depth)) == Some((r.value, b[pos..]))
      ensures r.None? ==> Decode(b[old(pos)..], old(depth)) == None
      decreases MAX_DEPTH - depth, 0
    {
      if pos >= |b| {
        return None;
      }
      depth := depth + 1;
      if depth > MAX_DEPTH {
        depth := depth - 1;
        return None;
      }
      r := ReadHead();
      depth := depth - 1;
    }

    method ReadHead() returns (r: Option<Value>)
      requires Valid() && pos < |b| && 0 < depth <= MAX_DEPTH
      modifies this
      ensures Valid() && depth == old(depth) && old(pos) <= pos
      ensures built - old(built) <= pos - old(pos)
      ensures r.Some? ==> Decode(b[old(pos)..], old(depth) - 1) == Some((r.value, b[pos..]))
      ensures r.None? ==> Decode(b[old(pos)..], old(depth) - 1) == None
      decreases MAX_DEPTH - depth, 2
    {
      var head := b[pos];
      ghost var s := b[pos..];
      pos := pos + 1;
      assert s[1..] == b[pos..];
      var major, info := head / 32, head % 32;
      if major == 7 {
        if info == 20 {
          r := Some(Bool(false));
        } else if info == 21 {
          r := Some(Bool(true));
        } else if info == 22 || info == 23 {
          r := Some(Null);
        } else {
          return None;
        }
        built := built + 1;
        return;
      }
      var arg := UInt(info);
      if arg.None? {
        return None;
      }
      var n := arg.value;
      if major == 0 || major == 1 {
        if n >= INT_LIMIT {
          return None;
        }
        built := built + 1;
        return Some(Int(if major == 0 then n else -1 - n));
      } else if major == 2 || major == 3 {
        if n > |b| - pos {
          return None;
        }
        var t := b[pos..pos + n];
        assert t == b[pos..][..n] && b[pos..][n..] == b[pos + n..];
        if major == 3 && !WellFormed(t) {
          return None;
        }
        pos := pos + n;
        built := built + 1;
        return Some(if major == 2 then Bytes(t) else Text(t));
      } else if major == 4 {
        if n > |b| - pos {
          return None;
        }
        r := ReadList(n);
      } else if major == 5 {
        if n > (|b| - pos) / 2 {
          return None;
        }
        r := ReadMap(n);
      } else {
        r := ReadValue();
      }
    }

    // The list's own value counts against the byte of its head.
    method ReadList(n: nat) returns (r: Option<Value>)
      requires Valid() && 0 < depth <= MAX_DEPTH
      modifies this
      ensures Valid() && depth == old(depth) && old(pos) <= pos
      ensures built - old(built) <= pos - old(pos) + 1
      ensures r.Some? ==> DecodeItems(b[old(pos)..], old(depth), n, []) == Some((r.value, b[pos..]))
      ensures r.None? ==> DecodeItems(b[old(pos)..], old(depth), n, []) == None
      decreases MAX_DEPTH - depth, 1
    {
      hide Decode;
      var list: seq<Value> := [];
      for i := 0 to n
        invariant Valid() && depth == old(depth) && old(pos) <= pos
        invariant built - old(built) <= pos - old(pos)
        invariant DecodeItems(b[old(pos)..], depth, n, []) == DecodeItems(b[pos..], depth, n - i, list)
      {
        var v := ReadValue();
        if v.None? {
          return None;
        }
        list := list + [v.value];
      }
      built := built + 1;
      r := Some(List(list));
    }

    method ReadMap(n: nat) returns (r: Option<Value>)
      requires Valid() && 0 < depth <= MAX_DEPTH
      modifies this
      ensures Valid() && depth == old(depth) && old(pos) <= pos
      ensures built - old(built) <= pos - old(pos) + 1
      ensures r.Some? ==> DecodePairs(b[old(pos)..], old(depth), n, map[]) == Some((r.value, b[pos..]))
      ensures r.None? ==> DecodePairs(b[old(pos)..], old(depth), n, map[]) == None
      decreases MAX_DEPTH - depth, 1
    {
      hide Decode;
      var m: map<Key, Value> := map[];
      for i := 0 to n
        invariant Valid() && depth == old(depth) && old(pos) <= pos
        invariant built - old(built) <= pos - old(pos)
        invariant DecodePairs(b[old(pos)..], depth, n, map[]) == DecodePairs(b[pos..], depth, n - i, m)
      {
        var k := ReadValue();
        if k.None? {
          return None;
        }
        var key := AsKey(k.value);
        if key.None? || key.value in m {
          return None;
        }
        var v := ReadValue();
        if v.None? {
          return None;
        }
        m := m[key.value := v.value];
      }
      built := built + 1;
      r := Some(Map(m));
    }
  }

  // ---- Encoding ----

  /** How a value is written: the bytes after each head (`w`: none, 1, 2, 4 or 8, not always the fewest), the
      order of map entries, the tags, and which of the two simple values stands for null. */
  datatype Item =
    | IntItem(w: nat, n: int)
    | BytesItem(w: nat, bytes: seq<Byte>)
    | TextItem(w: nat, text: seq<Byte>)
    | ListItem(w: nat, items: seq<Item>)
    | MapItem(w: nat, pairs: Pairs)
    | TagItem(w: nat, tag: nat, item: Item)
    | BoolItem(b: bool)
    | NullItem(undefined: bool)

  datatype Pairs = NoPairs | Entry(key: Item, item: Item, rest: Pairs)

  /** A tag adds nothing to what it tags. */
  function Meaning(i: Item): Value {
    match i
    case IntItem(_, n) => Int(n)
    case BytesItem(_, s) => Bytes(s)
    case TextItem(_, t) => Text(t)
    case ListItem(_, items) => List(Meanings(items))
    case MapItem(_, pairs) => Map(PairMeanings(pairs))
    case TagItem(_, _, item) => Meaning(item)
    case BoolItem(b) => Bool(b)
    case NullItem(_) => Null
  }

  function Meanings(items: seq<Item>): seq<Value> {
    if items == [] then [] else [Meaning(items[0])] + Meanings(items[1..])
  }

  function PairMeanings(pairs: Pairs): map<Key, Value> {
    match pairs
    case NoPairs => map[]
    case Entry(k, i, rest) =>
      match AsKey(Meaning(k))
      case Some(key) => PairMeanings(rest)[key := Meaning(i)]
      case None => PairMeanings(rest)
  }

  function Count(pairs: Pairs): nat {
    if pairs.NoPairs? then 0 else 1 + Count(pairs.rest)
  }

  /** Levels of nesting, the value itself counted; a tag is a level. */
  function Levels(i: Item): nat {
    match i
    case ListItem(_, items) => 1 + ItemsLevels(items)
    case MapItem(_, pairs) => 1 + PairsLevels(pairs)
    case TagItem(_, _, item) => 1 + Levels(item)
    case _ => 1
  }

  function Max(a: nat, b: nat): nat {
    if a < b then b else a
  }

  function ItemsLevels(items: seq<Item>): nat {
    if items == [] then 0 else Max(Levels(items[0]), ItemsLevels(items[1..]))
  }

  // A map's keys sit one level below it, like its values.
  function PairsLevels(pairs: Pairs): nat {
    match pairs
    case NoPairs => 0
    case Entry(k, i, rest) => Max(Max(Levels(k), Levels(i)), PairsLevels(rest))
  }

  /** Numbers that an argument of this width can hold. */
  predicate WidthFits(w: nat, n: nat) {
    || (w == 0 && n < 24)
    || (w == 1 && n < 0x100)
    || (w == 2 && n < 0x1_0000)
    || (w == 4 && n < 0x1_0000_0000)
    || (w == 8 && n < 0x1_0000_0000_0000_0000)
  }

  /** Major type and argument (section 3 of RFC 8949), for a width that fits. */
  function Head(major: nat, w: nat, n: nat): seq<Byte>
    requires major < 8
  {
    [32 * major + if w == 0 then n % 24 else if w == 1 then 24 else if w == 2 then 25 else if w == 4 then 26 else 27]
    + ToBytes(n, w)
  }

  function Enc(i: Item): seq<Byte> {
    match i
    case IntItem(w, n) => if n >= 0 then Head(0, w, n) else Head(1, w, -1 - n)
    case BytesItem(w, s) => Head(2, w, |s|) + s
    case TextItem(w, t) => Head(3, w, |t|) + t
    case ListItem(w, items) => Head(4, w, |items|) + EncItems(items)
    case MapItem(w, pairs) => Head(5, w, Count(pairs)) + EncPairs(pairs)
    case TagItem(w, tag, item) => Head(6, w, tag) + Enc(item)
    case BoolItem(b) => if b then [0xF5] else [0xF4]
    case NullItem(undefined) => if undefined then [0xF7] else [0xF6]
  }

  function EncItems(items: seq<Item>): seq<Byte> {
    if items == [] then [] else Enc(items[0]) + EncItems(items[1..])
  }

  function EncPairs(pairs: Pairs): seq<Byte> {
    match pairs
    case NoPairs => []
    case Entry(k, i, rest) => Enc(k) + Enc(i) + EncPairs(rest)
  }

  /** What the decoder supports: 64-bit signed integers, well-formed texts, maps whose keys are integers or
      texts, each once. No floats, no other simple values, no indefinite lengths: there is no item for them. */
  ghost predicate Supported(i: Item) {
    match i
    case IntItem(w, n) =>
      -0x8000_0000_0000_0000 <= n < 0x8000_0000_0000_0000 && WidthFits(w, if n >= 0 then n else -1 - n)
    case BytesItem(w, s) => WidthFits(w, |s|)
    case TextItem(w, t) => WidthFits(w, |t|) && WellFormed(t)
    case ListItem(w, items) => WidthFits(w, |items|) && forall k :: 0 <= k < |items| ==> Supported(items[k])
    case MapItem(w, pairs) => WidthFits(w, Count(pairs)) && SupportedPairs(pairs)
    case TagItem(w, tag, item) => WidthFits(w, tag) && Supported(item)
    case _ => true
  }

  ghost predicate SupportedPairs(pairs: Pairs) {
    match pairs
    case NoPairs => true
    case Entry(k, i, rest) =>
      && Supported(k) && Supported(i) && SupportedPairs(rest)
      && (Meaning(k).Int? || Meaning(k).Text?) && !HasKey(rest, Meaning(k))
  }

  /** Some entry has a key of that meaning. */
  ghost predicate HasKey(pairs: Pairs, v: Value) {
    pairs.Entry? && (Meaning(pairs.key) == v || HasKey(pairs.rest, v))
  }

  lemma Pow2Wide(k: nat)
    ensures Pow2(8) == 0x100 && Pow2(16) == 0x1_0000 && Pow2(32) == 0x1_0000_0000 && Pow2(64) == 0x1_0000_0000_0000_0000
    ensures k <= 8 ==> Pow2(8 * k) <= 0x1_0000_0000_0000_0000
  {
    Pow2Eight();
    Pow2Words();
    if k <= 8 {
      Pow2Monotone(8 * k, 64);
    }
  }

  /** Reading a head gives back its number and what follows it. */
  lemma HeadRead(major: nat, w: nat, n: nat, rest: seq<Byte>)
    requires major < 8 && WidthFits(w, n)
    ensures var h := Head(major, w, n) + rest;
            && h != [] && h[0] / 32 == major
            && ReadArg(h[1..], h[0] % 32) == Some((n, rest))
  {
    hide ReadArg, ValueOf, ToBytes, Head, Pow2;
    if w > 0 {
      var x := HeadIs(major, w, n);
      ArgRead(x, ToBytes(n, w), rest);
    } else {
      ShortHead(major, n);
      ShortRead(32 * major + n, rest);
    }
  }

  lemma ShortHead(major: nat, n: nat)
    requires major < 8 && n < 24
    ensures Head(major, 0, n) == [32 * major + n]
  {
    assert n % 24 == n;
  }

  lemma HeadIs(major: nat, w: nat, n: nat) returns (x: Byte)
    requires major < 8 && w > 0 && WidthFits(w, n)
    ensures Head(major, w, n) == [x] + ToBytes(n, w) && ValueOf(ToBytes(n, w)) == n && |ToBytes(n, w)| == w
    ensures x / 32 == major && x % 32 >= 24 && ArgLen(x % 32) == Some(w)
  {
    hide ValueOf, ToBytes, Pow2;
    x := 32 * major + (if w == 1 then 24 else if w == 2 then 25 else if w == 4 then 26 else 27);
    Pow2Wide(w);
    BytesRoundTrip(n, w);
  }

  // A head of several bytes: the argument is what stands behind the first byte.
  lemma ArgRead(x: Byte, a: seq<Byte>, rest: seq<Byte>)
    requires x % 32 >= 24 && ArgLen(x % 32) == Some(|a|)
    ensures var h := [x] + a + rest; h[0] == x && ReadArg(h[1..], x % 32) == Some((ValueOf(a), rest))
  {
    hide ValueOf;
    var h := [x] + a + rest;
    assert h[1..] == a + rest;
    assert (a + rest)[..|a|] == a && (a + rest)[|a|..] == rest;
  }

  lemma ShortRead(x: Byte, rest: seq<Byte>)
    requires x % 32 < 24
    ensures var h := [x] + rest; h[0] == x && ReadArg(h[1..], x % 32) == Some((x % 32, rest))
  {
    assert ([x] + rest)[1..] == rest;
  }

  lemma BytesAssoc(a: seq<Byte>, b: seq<Byte>, c: seq<Byte>)
    ensures (a + b) + c == a + (b + c)
  {
  }

  // A head and what it announces, in front of anything.
  lemma BodyRead(major: nat, w: nat, n: nat, body: seq<Byte>, rest: seq<Byte>)
    requires major < 8 && WidthFits(w, n)
    ensures var h := Head(major, w, n) + body + rest;
            && h != [] && h[0] / 32 == major
            && ReadArg(h[1..], h[0] % 32) == Some((n, body + rest))
            && (body + rest)[..|body|] == body && (body + rest)[|body|..] == rest
  {
    hide Head, ReadArg;
    HeadRead(major, w, n, body + rest);
    BytesAssoc(Head(major, w, n), body, rest);
  }

  // A list or map of n entries has at least as many bytes as the decoder checks for.
  lemma EncSizes(i: Item)
    ensures |Enc(i)| >= 1
  {
  }

  lemma {:induction false} ItemsSize(items: seq<Item>)
    ensures |EncItems(items)| >= |items|
  {
    if items != [] {
      EncSizes(items[0]);
      ItemsSize(items[1..]);
    }
  }

  lemma {:induction false} PairsSize(pairs: Pairs)
    ensures |EncPairs(pairs)| >= 2 * Count(pairs)
  {
    if pairs.Entry? {
      EncSizes(pairs.key);
      EncSizes(pairs.item);
      PairsSize(pairs.rest);
    }
  }

  lemma LeafStep(i: Item, rest: seq<Byte>, depth: nat)
    requires Supported(i) && depth < MAX_DEPTH && (i.IntItem? || i.BytesItem? || i.TextItem?)
    ensures Decode(Enc(i) + rest, depth) == Some((Meaning(i), rest))
  {
    hide Head, ReadArg;
    match i
    case IntItem(w, n) => HeadRead(if n >= 0 then 0 else 1, w, if n >= 0 then n else -1 - n, rest);
    case BytesItem(w, s) => BodyRead(2, w, |s|, s, rest);
    case TextItem(w, t) => BodyRead(3, w, |t|, t, rest);
  }

  lemma ListStep(w: nat, items: seq<Item>, rest: seq<Byte>, depth: nat)
    requires WidthFits(w, |items|) && depth < MAX_DEPTH
    ensures Decode(Enc(ListItem(w, items)) + rest, depth) == DecodeItems(EncItems(items) + rest, depth + 1, |items|, [])
  {
    hide Head, ReadArg, EncItems, DecodeItems;
    BodyRead(4, w, |items|, EncItems(items), rest);
    ItemsSize(items);
  }

  lemma MapStep(w: nat, pairs: Pairs, rest: seq<Byte>, depth: nat)
    requires WidthFits(w, Count(pairs)) && depth < MAX_DEPTH
    ensures Decode(Enc(MapItem(w, pairs)) + rest, depth) == DecodePairs(EncPairs(pairs) + rest, depth + 1, Count(pairs), map[])
  {
    hide Head, ReadArg, EncPairs, DecodePairs;
    BodyRead(5, w, Count(pairs), EncPairs(pairs), rest);
    PairsSize(pairs);
  }

  lemma TagStep(w: nat, tag: nat, item: Item, rest: seq<Byte>, depth: nat)
    requires WidthFits(w, tag) && depth < MAX_DEPTH
    ensures Decode(Enc(TagItem(w, tag, item)) + rest, depth) == Decode(Enc(item) + rest, depth + 1)
  {
    hide Head, ReadArg;
    BodyRead(6, w, tag, Enc(item), rest);
    var s := Enc(TagItem(w, tag, item)) + rest;
    assert s == Head(6, w, tag) + Enc(item) + rest;
    hide Enc;
  }

  lemma SimpleStep(i: Item, rest: seq<Byte>, depth: nat)
    requires i.BoolItem? || i.NullItem?
    requires depth < MAX_DEPTH
    ensures Decode(Enc(i) + rest, depth) == Some((Meaning(i), rest))
  {
    assert (Enc(i) + rest)[1..] == rest;
  }

  /** Decoding inverts encoding, whatever bytes follow, however wide the heads are and in whatever order a
      map is written. */
  lemma {:induction false} RoundTrip(i: Item, rest: seq<Byte>, depth: nat)
    requires Supported(i) && depth + Levels(i) <= MAX_DEPTH
    ensures Decode(Enc(i) + rest, depth) == Some((Meaning(i), rest))
    decreases i, 0
  {
    hide Decode, DecodeItems, DecodePairs, Enc, EncItems, EncPairs, Meanings, PairMeanings;
    match i
    case ListItem(w, items) => ListRoundTrip(w, items, rest, depth);
    case MapItem(w, pairs) => MapRoundTrip(w, pairs, rest, depth);
    case TagItem(w, tag, item) =>
      TagStep(w, tag, item, rest, depth);
      RoundTrip(item, rest, depth + 1);
    case BoolItem(_) => SimpleStep(i, rest, depth);
    case NullItem(_) => SimpleStep(i, rest, depth);
    case _ => LeafStep(i, rest, depth);
  }

  lemma {:induction false} ListRoundTrip(w: nat, items: seq<Item>, rest: seq<Byte>, depth: nat)
    requires WidthFits(w, |items|) && forall k :: 0 <= k < |items| ==> Supported(items[k])
    requires depth + 1 + ItemsLevels(items) <= MAX_DEPTH
    ensures Decode(Enc(ListItem(w, items)) + rest, depth) == Some((List(Meanings(items)), rest))
    decreases items, 2
  {
    hide Decode, DecodeItems, Enc, EncItems, Meanings, Supported, WidthFits;
    ListStep(w, items, rest, depth);
    ItemsRoundTrip(items, rest, depth + 1, []);
    NothingRead(items);
  }

  lemma {:induction false} MapRoundTrip(w: nat, pairs: Pairs, rest: seq<Byte>, depth: nat)
    requires WidthFits(w, Count(pairs)) && SupportedPairs(pairs) && depth + 1 + PairsLevels(pairs) <= MAX_DEPTH
    ensures Decode(Enc(MapItem(w, pairs)) + rest, depth) == Some((Map(PairMeanings(pairs)), rest))
    decreases pairs, 2
  {
    hide Decode, DecodePairs, Enc, EncPairs, PairMeanings, SupportedPairs, PairsLevels, WidthFits;
    MapStep(w, pairs, rest, depth);
    PairsRoundTrip(pairs, rest, depth + 1, map[]);
    NoPairsRead(pairs);
  }

  lemma NothingRead(items: seq<Item>)
    ensures [] + Meanings(items) == Meanings(items)
  {
  }

  lemma NoPairsRead(pairs: Pairs)
    ensures map[] + PairMeanings(pairs) == PairMeanings(pairs)
  {
  }

  lemma {:induction false} ItemsRoundTrip(items: seq<Item>, rest: seq<Byte>, depth: nat, read: seq<Value>)
    requires forall k :: 0 <= k < |items| ==> Supported(items[k])
    requires depth + ItemsLevels(items) <= MAX_DEPTH
    ensures DecodeItems(EncItems(items) + rest, depth, |items|, read) == Some((List(read + Meanings(items)), rest))
    decreases items, 1
  {
    if items == [] {
      assert EncItems(items) + rest == rest && read + [] == read;
    } else {
      hide Decode, Enc, Meaning, Supported, Levels;
      var more := EncItems(items[1..]) + rest;
      assert EncItems(items) + rest == Enc(items[0]) + more;
      RoundTrip(items[0], more, depth);
      ItemsRoundTrip(items[1..], rest, depth, read + [Meaning(items[0])]);
      assert read + Meanings(items) == (read + [Meaning(items[0])]) + Meanings(items[1..]);
    }
  }

  lemma PairStep(k: Item, i: Item, more: seq<Byte>, depth: nat, n: nat, read: map<Key, Value>)
    requires AsKey(Meaning(k)).Some? && AsKey(Meaning(k)).value !in read
    requires Decode(Enc(k) + (Enc(i) + more), depth) == Some((Meaning(k), Enc(i) + more))
    requires Decode(Enc(i) + more, depth) == Some((Meaning(i), more))
    ensures DecodePairs(Enc(k) + (Enc(i) + more), depth, n + 1, read)
         == DecodePairs(more, depth, n, read[AsKey(Meaning(k)).value := Meaning(i)])
  {
    hide Decode, DecodeItems, Enc, Meaning;
  }

  // Keys still to come: none of those already read.
  ghost predicate NewKeys(pairs: Pairs, read: map<Key, Value>) {
    forall k :: k in read ==> !HasKey(pairs, KeyValue(k))
  }

  function KeyValue(k: Key): Value {
    match k
    case IntKey(n) => Int(n)
    case TextKey(t) => Text(t)
  }

  lemma {:induction false} PairsRoundTrip(pairs: Pairs, rest: seq<Byte>, depth: nat, read: map<Key, Value>)
    requires SupportedPairs(pairs) && NewKeys(pairs, read)
    requires depth + PairsLevels(pairs) <= MAX_DEPTH
    ensures DecodePairs(EncPairs(pairs) + rest, depth, Count(pairs), read) == Some((Map(read + PairMeanings(pairs)), rest))
    decreases pairs, 1
  {
    hide Decode, DecodeItems, Enc, Meaning, Supported, Levels;
    match pairs
    case NoPairs =>
      assert EncPairs(pairs) + rest == rest && read + map[] == read;
    case Entry(k, i, others) =>
      var more := EncPairs(others) + rest;
      var key := AsKey(Meaning(k)).value;
      assert KeyValue(key) == Meaning(k) && HasKey(pairs, KeyValue(key));
      PairFirst(k, i, others, rest);
      RoundTrip(k, Enc(i) + more, depth);
      RoundTrip(i, more, depth);
      PairStep(k, i, more, depth, Count(others), read);
      assert NewKeys(others, read[key := Meaning(i)]);
      PairsRoundTrip(others, rest, depth, read[key := Meaning(i)]);
      MeaningsJoin(k, i, others, read);
  }

  lemma PairFirst(k: Item, i: Item, others: Pairs, rest: seq<Byte>)
    ensures EncPairs(Entry(k, i, others)) + rest == Enc(k) + (Enc(i) + (EncPairs(others) + rest))
  {
    hide Enc;
    BytesAssoc(Enc(k) + Enc(i), EncPairs(others), rest);
    BytesAssoc(Enc(k), Enc(i), EncPairs(others) + rest);
  }

  // The pair read first stays, as no other pair has its key.
  lemma MeaningsJoin(k: Item, i: Item, others: Pairs, read: map<Key, Value>)
    requires AsKey(Meaning(k)).Some? && !HasKey(others, Meaning(k))
    ensures read + PairMeanings(Entry(k, i, others))
         == read[AsKey(Meaning(k)).value := Meaning(i)] + PairMeanings(others)
  {
    hide Meaning;
    KeysOfMeanings(others, AsKey(Meaning(k)).value);
  }

  lemma {:induction false} KeysOfMeanings(pairs: Pairs, k: Key)
    ensures k in PairMeanings(pairs) ==> HasKey(pairs, KeyValue(k))
  {
    hide Meaning;
    if pairs.Entry? {
      KeysOfMeanings(pairs.rest, k);
    }
  }

  // ---- Nothing else is read ----

  lemma {:induction false} ValueWritten(b: seq<Byte>)
    ensures ToBytes(ValueOf(b), |b|) == b
  {
    if b != [] {
      var n := |b| - 1;
      ValueWritten(b[..n]);
      assert ValueOf(b) / 256 == ValueOf(b[..n]) && ValueOf(b) % 256 == b[n];
      assert b == b[..n] + [b[n]];
    }
  }

  // Every head that can be read is a written one.
  lemma HeadWritten(s: seq<Byte>) returns (w: nat)
    requires s != [] && ReadArg(s[1..], s[0] % 32).Some?
    ensures var (n, rest) := ReadArg(s[1..], s[0] % 32).value;
            WidthFits(w, n) && s == Head(s[0] / 32, w, n) + rest
  {
    hide ToBytes, ValueOf, Pow2;
    var info := s[0] % 32;
    var tail := s[1..];
    assert s[0] == 32 * (s[0] / 32) + info;
    if info < 24 {
      w := 0;
      ShortHead(s[0] / 32, info);
      assert s == [s[0]] + tail;
    } else {
      w := ArgLen(info).value;
      var a := tail[..w];
      ValueWritten(a);
      ValueBound(a);
      Pow2Wide(w);
      assert s == [s[0]] + (a + tail[w..]);
      BytesAssoc([s[0]], a, tail[w..]);
    }
  }

  /** The item stands at the start of `s`, means `v` and leaves `rest`; `depth` values are already open. */
  ghost predicate Spells(s: seq<Byte>, depth: nat, i: Item, v: Value, rest: seq<Byte>) {
    Supported(i) && depth + Levels(i) <= 16 && s == Enc(i) + rest && Meaning(i) == v
  }

  lemma LeafWritten(s: seq<Byte>, depth: nat) returns (i: Item)
    requires Decode(s, depth).Some? && s[0] / 32 in {0, 1, 2, 3, 7}
    ensures Spells(s, depth, i, Decode(s, depth).value.0, Decode(s, depth).value.1)
  {
    hide Head, ReadArg, ToBytes, ValueOf, WellFormed;
    if s[0] / 32 == 7 {
      i := if s[0] % 32 == 20 then BoolItem(false) else if s[0] % 32 == 21 then BoolItem(true)
           else NullItem(s[0] % 32 == 23);
      assert s == [s[0]] + s[1..];
    } else {
      var w := HeadWritten(s);
      var (n, rest) := ReadArg(s[1..], s[0] % 32).value;
      if s[0] / 32 <= 1 {
        i := IntItem(w, if s[0] / 32 == 0 then n else -1 - n);
      } else {
        assert rest == rest[..n] + rest[n..];
        BytesAssoc(Head(s[0] / 32, w, n), rest[..n], rest[n..]);
        i := if s[0] / 32 == 2 then BytesItem(w, rest[..n]) else TextItem(w, rest[..n]);
      }
    }
  }

  /** Whatever is decoded was written as a supported item of at most sixteen levels. */
  lemma {:induction false} OnlySupported(s: seq<Byte>, depth: nat) returns (i: Item)
    requires Decode(s, depth).Some?
    ensures Spells(s, depth, i, Decode(s, depth).value.0, Decode(s, depth).value.1)
    decreases if depth < MAX_DEPTH then MAX_DEPTH - depth else 0, 0, 1
  {
    hide DecodeItems, DecodePairs, Enc, Head, ReadArg, Meaning, Levels, Supported, WidthFits, Spells;
    var major := s[0] / 32;
    if major <= 3 || major == 7 {
      i := LeafWritten(s, depth);
    } else {
      var w := HeadWritten(s);
      var (n, rest) := ReadArg(s[1..], s[0] % 32).value;
      if major == 4 {
        var items := ItemsWritten(rest, depth + 1, n, []);
        i := ListItem(w, items);
        ListSpells(s, depth, w, n, items, rest, Decode(s, depth).value.0, Decode(s, depth).value.1);
      } else if major == 5 {
        var pairs := PairsWritten(rest, depth + 1, n, map[]);
        i := MapItem(w, pairs);
        MapSpells(s, depth, w, n, pairs, rest, Decode(s, depth).value.0, Decode(s, depth).value.1);
      } else {
        assert major == 6;
        var item := OnlySupported(rest, depth + 1);
        i := TagItem(w, n, item);
        TagSpells(s, depth, w, n, item, rest, Decode(s, depth).value.0, Decode(s, depth).value.1);
      }
    }
  }

  lemma TagSpells(s: seq<Byte>, depth: nat, w: nat, n: nat, item: Item, body: seq<Byte>, v: Value, rest: seq<Byte>)
    requires Spells(body, depth + 1, item, v, rest) && WidthFits(w, n) && s == Head(6, w, n) + body
    ensures Spells(s, depth, TagItem(w, n, item), v, rest)
  {
    hide Head, WidthFits;
    BytesAssoc(Head(6, w, n), Enc(item), rest);
  }

  ghost predicate SpellItems(s: seq<Byte>, depth: nat, items: seq<Item>, v: Value, rest: seq<Byte>, read: seq<Value>) {
    && (forall k :: 0 <= k < |items| ==> Supported(items[k]))
    && depth + ItemsLevels(items) <= 16
    && s == EncItems(items) + rest && v == List(read + Meanings(items))
  }

  lemma ListSpells(s: seq<Byte>, depth: nat, w: nat, n: nat, items: seq<Item>, body: seq<Byte>, v: Value, rest: seq<Byte>)
    requires SpellItems(body, depth + 1, items, v, rest, []) && |items| == n
    requires WidthFits(w, n) && s == Head(4, w, n) + body
    ensures Spells(s, depth, ListItem(w, items), v, rest)
  {
    hide Head, WidthFits, EncItems, Meanings, ItemsLevels;
    BytesAssoc(Head(4, w, n), EncItems(items), rest);
    NothingRead(items);
  }

  lemma {:induction false} ItemsWritten(s: seq<Byte>, depth: nat, n: nat, read: seq<Value>) returns (items: seq<Item>)
    requires depth <= MAX_DEPTH && DecodeItems(s, depth, n, read).Some?
    ensures |items| == n
    ensures SpellItems(s, depth, items, DecodeItems(s, depth, n, read).value.0, DecodeItems(s, depth, n, read).value.1, read)
    decreases if depth < MAX_DEPTH then MAX_DEPTH - depth else 0, n, 2
  {
    hide Decode;
    if n == 0 {
      items := [];
      assert [] + s == s && read + [] == read;
    } else {
      var (v, more) := Decode(s, depth).value;
      var i := OnlySupported(s, depth);
      var others := ItemsWritten(more, depth, n - 1, read + [v]);
      items := [i] + others;
      ItemsOneMore(s, depth, i, others, v, more, read, DecodeItems(s, depth, n, read).value.0, DecodeItems(s, depth, n, read).value.1);
    }
  }

  lemma ItemsOneMore(s: seq<Byte>, depth: nat, i: Item, others: seq<Item>, v: Value, more: seq<Byte>, read: seq<Value>,
                     all: Value, rest: seq<Byte>)
    requires Spells(s, depth, i, v, more) && SpellItems(more, depth, others, all, rest, read + [v])
    ensures SpellItems(s, depth, [i] + others, all, rest, read)
  {
    hide Enc, Levels, Meaning, Supported;
    var items := [i] + others;
    assert items[1..] == others;
    BytesAssoc(Enc(i), EncItems(others), rest);
    assert read + ([v] + Meanings(others)) == (read + [v]) + Meanings(others);
  }

  ghost predicate SpellPairs(s: seq<Byte>, depth: nat, pairs: Pairs, v: Value, rest: seq<Byte>, read: map<Key, Value>) {
    && SupportedPairs(pairs) && NewKeys(pairs, read)
    && depth + PairsLevels(pairs) <= 16
    && s == EncPairs(pairs) + rest && v == Map(read + PairMeanings(pairs))
  }

  lemma MapSpells(s: seq<Byte>, depth: nat, w: nat, n: nat, pairs: Pairs, body: seq<Byte>, v: Value, rest: seq<Byte>)
    requires SpellPairs(body, depth + 1, pairs, v, rest, map[]) && Count(pairs) == n
    requires WidthFits(w, n) && s == Head(5, w, n) + body
    ensures Spells(s, depth, MapItem(w, pairs), v, rest)
  {
    hide Head, WidthFits, EncPairs, PairMeanings, PairsLevels, SupportedPairs;
    BytesAssoc(Head(5, w, n), EncPairs(pairs), rest);
    NoPairsRead(pairs);
  }

  lemma {:induction false} PairsWritten(s: seq<Byte>, depth: nat, n: nat, read: map<Key, Value>) returns (pairs: Pairs)
    requires depth <= MAX_DEPTH && DecodePairs(s, depth, n, read).Some?
    ensures Count(pairs) == n
    ensures SpellPairs(s, depth, pairs, DecodePairs(s, depth, n, read).value.0, DecodePairs(s, depth, n, read).value.1, read)
    decreases if depth < MAX_DEPTH then MAX_DEPTH - depth else 0, n, 2
  {
    hide Decode;
    if n == 0 {
      pairs := NoPairs;
      assert [] + s == s && read + map[] == read;
    } else {
      var (kv, more) := Decode(s, depth).value;
      var (v, last) := Decode(more, depth).value;
      var k := OnlySupported(s, depth);
      var i := OnlySupported(more, depth);
      var key := AsKey(kv).value;
      var others := PairsWritten(last, depth, n - 1, read[key := v]);
      pairs := Entry(k, i, others);
      PairsOneMore(s, depth, k, i, others, key, v, more, last, read,
                   DecodePairs(s, depth, n, read).value.0, DecodePairs(s, depth, n, read).value.1);
    }
  }

  lemma PairsOneMore(s: seq<Byte>, depth: nat, k: Item, i: Item, others: Pairs, key: Key, v: Value, more: seq<Byte>,
                     last: seq<Byte>, read: map<Key, Value>, all: Value, rest: seq<Byte>)
    requires Spells(s, depth, k, KeyValue(key), more) && Spells(more, depth, i, v, last) && key !in read
    requires SpellPairs(last, depth, others, all, rest, read[key := v])
    ensures SpellPairs(s, depth, Entry(k, i, others), all, rest, read)
  {
    hide Enc, Levels, Meaning, Supported;
    PairFirst(k, i, others, rest);
    assert key in read[key := v] && !HasKey(others, KeyValue(key));
    MeaningsJoin(k, i, others, read);
    forall q | q in read ensures !HasKey(Entry(k, i, others), KeyValue(q)) {
      assert q in read[key := v];
    }
  }

  /** First value of `b` and number of bytes read: there is one exactly when the bytes start with a supported
      item of at most sixteen levels, and it is what the item means. */
  method CborDecode(b: seq<Byte>) returns (v: Option<Value>, n: nat)
    ensures n <= |b|
    ensures v.Some? <==> exists i, rest :: Supported(i) && Levels(i) <= 16 && b == Enc(i) + rest
    ensures forall i, rest :: Supported(i) && Levels(i) <= 16 && b == Enc(i) + rest ==> v == Some(Meaning(i)) && n == |Enc(i)|
  {
    hide Enc, Levels, Meaning, Supported;
    var d := new Decoder(b);
    assert b[0..] == b;
    v := d.ReadValue();
    n := d.pos;
    if v.Some? {
      ghost var i := OnlySupported(b, 0);
      assert Supported(i) && Levels(i) <= 16 && b == Enc(i) + b[n..];
    }
    forall i, rest | Supported(i) && Levels(i) <= 16 && b == Enc(i) + rest ensures v == Some(Meaning(i)) && n == |Enc(i)| {
      RoundTrip(i, rest, 0);
      assert |b[n..]| == |rest|;
    }
  }
}
