/** Inline tables (`auth = { token = "..." }`) as trees: writing or removing one key. */
module InlineTables {
  import opened Wrappers
  import opened TomlStrings

  /** A dotted key, segment by segment. */
  type Path = seq<string>

  /** The items of a table, in order; a value is a raw text or a nested table. */
  datatype Tab = Nil | Item(key: Path, val: Val, rest: Tab)
  datatype Val = Leaf(raw: string) | Sub(tab: Tab)

  /** `a` is a proper prefix of `b`. */
  predicate Under(a: Path, b: Path) {
    a < b
  }

  predicate Comparable(a: Path, b: Path) {
    a <= b || b <= a
  }

  // ---- Meaning ----

  /** The table holds value `v` at path `p`, nested tables included. */
  predicate Has(t: Tab, p: Path, v: string)
    decreases t
  {
    match t
    case Nil => false
    case Item(k, val, rest) => ValHas(k, val, p, v) || Has(rest, p, v)
  }

  predicate ValHas(k: Path, val: Val, p: Path, v: string)
    decreases val
  {
    match val
    case Leaf(raw) => p == k && v == Unquote(raw)
    case Sub(s) => Under(k, p) && Has(s, p[|k|..], v)
  }

  ghost predicate NoClash(k: Path, t: Tab) {
    t.Item? ==> !Comparable(k, t.key) && NoClash(k, t.rest)
  }

  /** No key is empty, repeated or above another one. */
  ghost predicate Wf(t: Tab) {
    match t
    case Nil => true
    case Item(k, val, rest) => k != [] && NoClash(k, rest) && Wf(rest) && (val.Sub? ==> Wf(val.tab))
  }

  // ---- The operation ----

  predicate HasKey(t: Tab, p: Path) {
    t.Item? && (t.key == p || HasKey(t.rest, p))
  }

  predicate HasHost(t: Tab, p: Path) {
    t.Item? && (Under(t.key, p) || HasHost(t.rest, p))
  }

  predicate HasBelow(t: Tab, p: Path) {
    t.Item? && (Under(p, t.key) || HasBelow(t.rest, p))
  }

  /** Key of the first item above `p`. */
  function HostKey(t: Tab, p: Path): Path
    requires HasHost(t, p)
  {
    if Under(t.key, p) then t.key else HostKey(t.rest, p)
  }

  function ValueAt(t: Tab, k: Path): Val
    requires HasKey(t, k)
  {
    if t.key == k then t.val else ValueAt(t.rest, k)
  }

  function Replace(t: Tab, k: Path, val: Val): Tab {
    match t
    case Nil => Nil
    case Item(k', v, rest) => if k' == k then Item(k, val, rest) else Item(k', v, Replace(rest, k, val))
  }

  function Drop(t: Tab, k: Path): Tab {
    match t
    case Nil => Nil
    case Item(k', v, rest) => if k' == k then rest else Item(k', v, Drop(rest, k))
  }

  function Append(t: Tab, k: Path, val: Val): Tab {
    match t
    case Nil => Item(k, val, Nil)
    case Item(k', v, rest) => Item(k', v, Append(rest, k, val))
  }

  lemma {:induction false} HostIsKey(t: Tab, p: Path)
    requires HasHost(t, p)
    ensures HasKey(t, HostKey(t, p)) && Under(HostKey(t, p), p)
    ensures ValueAt(t, HostKey(t, p)) < t
  {
    if !Under(t.key, p) {
      HostIsKey(t.rest, p);
    }
  }

  /** What a path leads to: nothing, a plain value above it, keys below it without being a key
      itself, or the value stored under it. */
  datatype Spot<V> = Free | Stuck | Above | Leads(val: V)

  function Walk(t: Tab, p: Path): Spot<Val>
    decreases t
  {
    match t
    case Nil => Free
    case Item(k, val, rest) =>
      if k == p then Leads(val)
      else if Under(k, p) then (if val.Leaf? then Stuck else Walk(val.tab, p[|k|..]))
      else if Walk(rest, p).Free? && Under(p, k) then Above
      else Walk(rest, p)
  }

  /** Is the value found already the one written? Texts are compared; `keep` says whether the text of
      the table found at the key is the value written. */
  predicate SameValue(val: Val, raw: string, keep: bool) {
    match val
    case Leaf(was) => Unquote(was) == Unquote(raw)
    case Sub(_) => keep
  }

  /** Writes (`raw`) or removes (None) the key `p`, a table found under it included; a nested table
      emptied by it leaves with its key. None: the key cannot be stored there. */
  function SetKey(t: Tab, p: Path, raw: Option<string>, keep: bool): Option<Tab>
    decreases t
  {
    if HasKey(t, p) then
      match raw
      case None => Some(Drop(t, p))
      case Some(r) => Some(if SameValue(ValueAt(t, p), r, keep) then t else Replace(t, p, Leaf(r)))
    else if HasHost(t, p) then
      HostIsKey(t, p);
      var k := HostKey(t, p);
      var val := ValueAt(t, k);
      if val.Leaf? then None
      else
        match SetKey(val.tab, p[|k|..], raw, keep)
        case None => None
        case Some(sub) =>
          if sub == val.tab then Some(t)
          else if sub == Nil then Some(Drop(t, k))
          else Some(Replace(t, k, Sub(sub)))
    else if HasBelow(t, p) then None
    else Some(match raw case None => t case Some(r) => Append(t, p, Leaf(r)))
  }

  // ---- Lookups ----

  lemma {:induction false} NoClashWith(k: Path, t: Tab, p: Path)
    requires NoClash(k, t) && HasKey(t, p)
    ensures !Comparable(k, p)
  {
    if t.key != p {
      NoClashWith(k, t.rest, p);
    }
  }

  // A path at or below one key is at or below no other.
  lemma {:induction false} NothingElseBelow(k: Path, t: Tab, p: Path)
    requires Wf(t) && NoClash(k, t) && k <= p
    ensures !HasKey(t, p) && !HasHost(t, p)
    ensures forall v :: !Has(t, p, v)
    ensures Walk(t, p).Free? || Walk(t, p).Above?
  {
    if t.Item? {
      NothingElseBelow(k, t.rest, p);
    }
  }

  /** What the table holds at a key is what the value stored there is. */
  lemma {:induction false} HasAtKey(t: Tab, k: Path, p: Path, v: string)
    requires Wf(t) && HasKey(t, k) && k <= p
    ensures Has(t, p, v) <==> ValHas(k, ValueAt(t, k), p, v)
    ensures Walk(t, p) == if k == p then Leads(ValueAt(t, k)) else if ValueAt(t, k).Leaf? then Stuck else Walk(ValueAt(t, k).tab, p[|k|..])
    ensures ValueAt(t, k).Sub? ==> Wf(ValueAt(t, k).tab)
  {
    if t.key == k {
      NothingElseBelow(k, t.rest, p);
    } else {
      NoClashWith(t.key, t.rest, k);
      assert !(t.key <= p) && !(p <= t.key) by {
        PrefixesMeet(t.key, k, p);
      }
      HasAtKey(t.rest, k, p, v);
    }
  }

  /** A value leads to itself, and a path above it to the table that holds it, or to no key at all. */
  lemma {:induction false} ValueLeads(t: Tab, p: Path, v: string, q: Path)
    requires Wf(t) && Has(t, p, v) && q <= p
    ensures q == p ==> Walk(t, q).Leads?
    ensures q != p ==> Walk(t, q).Above? || (Walk(t, q).Leads? && Walk(t, q).val.Sub?)
    decreases t
  {
    var k := t.key;
    if ValHas(k, t.val, p, v) {
      PrefixesMeet(q, k, p);
      if q < k {
        NothingAtOrAbove(k, t.rest, q);
      } else if k < q {
        ValueLeads(t.val.tab, p[|k|..], v, q[|k|..]);
      }
    } else {
      assert !(k <= p) by { NothingHeldBelow(k, t.rest, p, v); }
      ValueLeads(t.rest, p, v, q);
    }
  }

  lemma NothingHeldBelow(k: Path, t: Tab, p: Path, v: string)
    requires Wf(t) && NoClash(k, t) && Has(t, p, v)
    ensures !(k <= p)
  {
    if k <= p {
      NothingElseBelow(k, t, p);
    }
  }

  // A path above one key is at or below no other.
  lemma {:induction false} NothingAtOrAbove(k: Path, t: Tab, q: Path)
    requires NoClash(k, t) && q <= k
    ensures Walk(t, q).Free? || Walk(t, q).Above?
  {
    if t.Item? {
      NothingAtOrAbove(k, t.rest, q);
    }
  }

  // Two prefixes of one path are comparable.
  lemma PrefixesMeet(a: Path, b: Path, p: Path)
    requires b <= p
    ensures a <= p ==> Comparable(a, b)
    ensures p <= a ==> b <= a
  {
    if a <= p {
      if |a| <= |b| {
        assert a == p[..|a|] == b[..|a|];
      } else {
        assert b == p[..|b|] == a[..|b|];
      }
    }
  }

  // ---- What each edit does ----

  lemma {:induction false} ReplaceKeepsKeys(t: Tab, k: Path, val: Val, c: Path)
    ensures NoClash(c, Replace(t, k, val)) <==> NoClash(c, t)
    ensures HasKey(Replace(t, k, val), c) <==> HasKey(t, c)
  {
    if t.Item? && t.key != k {
      ReplaceKeepsKeys(t.rest, k, val, c);
    }
  }

  lemma {:induction false} ReplaceMeans(t: Tab, k: Path, val: Val, p: Path, v: string)
    requires Wf(t) && HasKey(t, k) && (val.Sub? ==> Wf(val.tab))
    ensures Wf(Replace(t, k, val))
    ensures Has(Replace(t, k, val), p, v) <==> if k <= p then ValHas(k, val, p, v) else Has(t, p, v)
  {
    if t.key == k {
      if k <= p {
        NothingElseBelow(k, t.rest, p);
      }
    } else {
      NoClashWith(t.key, t.rest, k);
      ReplaceMeans(t.rest, k, val, p, v);
      ReplaceKeepsKeys(t.rest, k, val, t.key);
      if k <= p {
        PrefixesMeet(t.key, k, p);
      }
    }
  }

  lemma {:induction false} DropKeepsKeys(t: Tab, k: Path, c: Path)
    requires NoClash(c, t)
    ensures NoClash(c, Drop(t, k))
  {
    if t.Item? && t.key != k {
      DropKeepsKeys(t.rest, k, c);
    }
  }

  lemma {:induction false} DropMeans(t: Tab, k: Path, p: Path, v: string)
    requires Wf(t) && HasKey(t, k)
    ensures Wf(Drop(t, k))
    ensures Has(Drop(t, k), p, v) <==> !(k <= p) && Has(t, p, v)
  {
    if t.key == k {
      if k <= p {
        NothingElseBelow(k, t.rest, p);
      }
    } else {
      NoClashWith(t.key, t.rest, k);
      DropMeans(t.rest, k, p, v);
      DropKeepsKeys(t.rest, k, t.key);
      if k <= p {
        PrefixesMeet(t.key, k, p);
      }
    }
  }

  lemma {:induction false} AppendKeepsKeys(t: Tab, k: Path, val: Val, c: Path)
    requires NoClash(c, t) && !Comparable(c, k)
    ensures NoClash(c, Append(t, k, val))
  {
    if t.Item? {
      AppendKeepsKeys(t.rest, k, val, c);
    }
  }

  lemma {:induction false} AppendMeans(t: Tab, k: Path, raw: string, p: Path, v: string)
    requires Wf(t) && k != [] && !HasKey(t, k) && !HasHost(t, k) && !HasBelow(t, k)
    ensures Wf(Append(t, k, Leaf(raw)))
    ensures Has(Append(t, k, Leaf(raw)), p, v) <==> Has(t, p, v) || (p == k && v == Unquote(raw))
  {
    if t.Item? {
      AppendMeans(t.rest, k, raw, p, v);
      AppendKeepsKeys(t.rest, k, Leaf(raw), t.key);
    }
  }

  // Without a key or a host, nothing is held at the path or below its prefixes.
  lemma {:induction false} NotHeld(t: Tab, p: Path, q: Path, v: string)
    requires Wf(t) && !HasKey(t, p) && !HasHost(t, p) && q <= p
    ensures !Has(t, q, v)
  {
    if t.Item? {
      NotHeld(t.rest, p, q, v);
    }
  }

  /** Without a key or a host, a path is free or above other keys. */
  lemma {:induction false} WalkFree(t: Tab, p: Path)
    requires !HasKey(t, p) && !HasHost(t, p)
    ensures Walk(t, p) == if HasBelow(t, p) then Above else Free
  {
    if t.Item? {
      WalkFree(t.rest, p);
    }
  }

  // ---- The laws ----

  /** Is some proper prefix of `p` a value? Then `p` cannot be stored. */
  ghost predicate Blocked(t: Tab, p: Path) {
    exists q, v :: Under(q, p) && Has(t, q, v)
  }

  lemma {:induction false} HeldHasKey(t: Tab, q: Path, v: string)
    requires Has(t, q, v)
    ensures HasKey(t, q) || HasHost(t, q)
  {
    if !ValHas(t.key, t.val, q, v) {
      HeldHasKey(t.rest, q, v);
    }
  }

  lemma {:induction false} NothingAbove(t: Tab, p: Path, q: Path, v: string)
    requires Wf(t) && HasKey(t, p) && Under(q, p)
    ensures !Has(t, q, v)
  {
    if t.key == p {
      NothingAboveHead(p, t.rest, q, v);
    } else {
      NoClashWith(t.key, t.rest, p);
      NothingAbove(t.rest, p, q, v);
      assert !(t.key <= q);
    }
  }

  lemma {:induction false} NothingAboveHead(p: Path, t: Tab, q: Path, v: string)
    requires Wf(t) && NoClash(p, t) && Under(q, p)
    ensures !Has(t, q, v)
  {
    if t.Item? {
      NothingAboveHead(p, t.rest, q, v);
    }
  }

  lemma KeyNotBlocked(t: Tab, p: Path)
    requires Wf(t) && HasKey(t, p)
    ensures !Blocked(t, p)
  {
    forall q, v | Under(q, p) ensures !Has(t, q, v) {
      NothingAbove(t, p, q, v);
    }
  }

  lemma FreeNotBlocked(t: Tab, p: Path)
    requires Wf(t) && !HasKey(t, p) && !HasHost(t, p)
    ensures !Blocked(t, p)
  {
    forall q, v | Under(q, p) ensures !Has(t, q, v) {
      NotHeld(t, p, q, v);
    }
  }

  // Nothing is held strictly above the key of an item, nor at the key of a nested table.
  lemma HostDecides(t: Tab, k: Path, p: Path)
    requires Wf(t) && HasKey(t, k) && Under(k, p)
    ensures match ValueAt(t, k)
            case Leaf(_) => Blocked(t, p)
            case Sub(s) => Blocked(t, p) <==> Blocked(s, p[|k|..])
  {
    match ValueAt(t, k)
    case Leaf(raw) =>
      HasAtKey(t, k, k, Unquote(raw));
      assert Has(t, k, Unquote(raw));
    case Sub(s) =>
      hide Wf, Has, HasKey;
      KeyNotBlocked(t, k);
      HasAtKey(t, k, p, "");
      if Blocked(t, p) {
        var q, v :| Under(q, p) && Has(t, q, v);
        PrefixesMeet(q, k, p);
        assert !Under(q, k);
        HasAtKey(t, k, q, v);
        assert Under(q[|k|..], p[|k|..]);
      }
      if Blocked(s, p[|k|..]) {
        var q, v :| Under(q, p[|k|..]) && Has(s, q, v);
        assert (k + q)[|k|..] == q && Under(k + q, p);
        HeldNotAtRoot(s, q, v);
        HasAtKey(t, k, k + q, v);
      }
  }

  lemma HeldNotAtRoot(t: Tab, q: Path, v: string)
    requires Wf(t) && Has(t, q, v)
    ensures q != []
  {
    HeldHasKey(t, q, v);
    KeysNotEmpty(t, q);
  }

  lemma {:induction false} KeysNotEmpty(t: Tab, q: Path)
    requires Wf(t) && (HasKey(t, q) || HasHost(t, q))
    ensures q != []
  {
    if t.key != q && !Under(t.key, q) {
      KeysNotEmpty(t.rest, q);
    }
  }

  /** Nothing can be stored at a path exactly when a value stands above it. */
  lemma {:induction false} StuckIsBlocked(t: Tab, p: Path)
    requires Wf(t)
    ensures Walk(t, p).Stuck? <==> Blocked(t, p)
    decreases t
  {
    hide Wf, Has, Blocked, Walk;
    if HasKey(t, p) {
      KeyNotBlocked(t, p);
      HasAtKey(t, p, p, "");
    } else if HasHost(t, p) {
      HostIsKey(t, p);
      var k := HostKey(t, p);
      HasAtKey(t, k, p, "");
      HostDecides(t, k, p);
      if ValueAt(t, k).Sub? {
        StuckIsBlocked(ValueAt(t, k).tab, p[|k|..]);
      }
    } else {
      WalkFree(t, p);
      FreeNotBlocked(t, p);
    }
  }

  /** After writing (`raw`) or removing (None) the key `p`: that value there or none, nothing below it,
      and every other value as before. */
  ghost predicate Changed(t: Tab, t': Tab, p: Path, raw: Option<string>) {
    Wf(t') && forall q, v :: Has(t', q, v) <==> ChangedHas(t, p, raw, q, v)
  }

  ghost predicate ChangedHas(t: Tab, p: Path, raw: Option<string>, q: Path, v: string) {
    if q == p then raw.Some? && v == Unquote(raw.value) else !(p <= q) && Has(t, q, v)
  }

  lemma WriteAtKey(t: Tab, p: Path, raw: string)
    requires Wf(t) && HasKey(t, p)
    ensures Changed(t, Replace(t, p, Leaf(raw)), p, Some(raw))
  {
    hide Wf, Has, HasKey, Replace, ValueAt;
    ReplaceMeans(t, p, Leaf(raw), p, "");
    forall q, v ensures Has(Replace(t, p, Leaf(raw)), q, v) <==> ChangedHas(t, p, Some(raw), q, v) {
      ReplaceMeans(t, p, Leaf(raw), q, v);
    }
  }

  // The value there already reads as the one written.
  lemma SameAtKey(t: Tab, p: Path, raw: string)
    requires Wf(t) && HasKey(t, p) && ValueAt(t, p).Leaf? && Unquote(ValueAt(t, p).raw) == Unquote(raw)
    ensures Changed(t, t, p, Some(raw))
  {
    hide Wf, Has, HasKey, ValueAt;
    forall q, v ensures Has(t, q, v) <==> ChangedHas(t, p, Some(raw), q, v) {
      if p <= q {
        HasAtKey(t, p, q, v);
      }
    }
  }

  lemma DropAtKey(t: Tab, p: Path)
    requires Wf(t) && HasKey(t, p)
    ensures Changed(t, Drop(t, p), p, None)
  {
    hide Wf, Has, HasKey, Drop;
    DropMeans(t, p, p, "");
    forall q, v ensures Has(Drop(t, p), q, v) <==> ChangedHas(t, p, None, q, v) {
      DropMeans(t, p, q, v);
    }
  }

  lemma {:induction false} HasKeyReplaced(t: Tab, k: Path, val: Val)
    requires HasKey(t, k)
    ensures HasKey(Replace(t, k, val), k) && ValueAt(Replace(t, k, val), k) == val
  {
    if t.key != k {
      HasKeyReplaced(t.rest, k, val);
    }
  }

  // A nested table rewritten, seen from the table around it: one path at a time.
  lemma AroundSub(t: Tab, k: Path, sub: Tab, q: Path, v: string)
    requires Wf(t) && HasKey(t, k) && ValueAt(t, k).Sub? && Wf(sub)
    ensures var t' := Replace(t, k, Sub(sub));
            Wf(t') && (Has(t', q, v) <==> if Under(k, q) then Has(sub, q[|k|..], v) else Has(t, q, v))
    ensures Wf(ValueAt(t, k).tab)
    ensures Under(k, q) ==> (Has(t, q, v) <==> Has(ValueAt(t, k).tab, q[|k|..], v))
    ensures q == k ==> !Has(t, q, v)
  {
    hide Wf, Has, HasKey, ValueAt, Replace;
    var t' := Replace(t, k, Sub(sub));
    HasKeyReplaced(t, k, Sub(sub));
    ReplaceMeans(t, k, Sub(sub), q, v);
    HasAtKey(t, k, k, v);
    if k <= q {
      HasAtKey(t, k, q, v);
      HasAtKey(t', k, q, v);
    }
  }

  lemma SplitPath(k: Path, q: Path, p: Path)
    requires k <= p
    ensures k <= q ==> (q == p <==> q[|k|..] == p[|k|..])
    ensures k <= q ==> (Under(q, p) <==> Under(q[|k|..], p[|k|..]))
    ensures k <= q ==> (p <= q <==> p[|k|..] <= q[|k|..])
    ensures p <= q ==> k <= q
  {
    if k <= q {
      assert q == k + q[|k|..] && p == k + p[|k|..];
    }
  }

  lemma ChangeInHost(t: Tab, k: Path, sub: Tab, p: Path, raw: Option<string>)
    requires Wf(t) && HasKey(t, k) && Under(k, p) && ValueAt(t, k).Sub?
    requires Changed(ValueAt(t, k).tab, sub, p[|k|..], raw)
    ensures Changed(t, Replace(t, k, Sub(sub)), p, raw)
  {
    hide Wf, Has, HasKey, ValueAt, Replace;
    AroundSub(t, k, sub, p, "");
    forall q, v ensures Has(Replace(t, k, Sub(sub)), q, v) <==> ChangedHas(t, p, raw, q, v) {
      AroundSub(t, k, sub, q, v);
      SplitPath(k, q, p);
    }
  }

  // A nested table that holds nothing any more leaves with its key.
  lemma EmptyInHost(t: Tab, k: Path, p: Path, raw: Option<string>)
    requires Wf(t) && HasKey(t, k) && Under(k, p) && ValueAt(t, k).Sub?
    requires Changed(ValueAt(t, k).tab, Nil, p[|k|..], raw)
    ensures Changed(t, Drop(t, k), p, raw)
  {
    hide Wf, Has, HasKey, ValueAt, Replace, Drop;
    NilHoldsNone([], "");
    DropMeans(t, k, p, "");
    forall q, v ensures Has(Drop(t, k), q, v) <==> ChangedHas(t, p, raw, q, v) {
      DropMeans(t, k, q, v);
      AroundSub(t, k, Nil, q, v);
      SplitPath(k, q, p);
      if Under(k, q) {
        NilHoldsNone(q[|k|..], v);
      }
    }
  }

  lemma NilHoldsNone(q: Path, v: string)
    ensures !Has(Nil, q, v) && Wf(Nil)
  {
  }

  lemma {:induction false} SameReplaced(t: Tab, k: Path)
    requires HasKey(t, k)
    ensures Replace(t, k, ValueAt(t, k)) == t
  {
    if t.key != k {
      SameReplaced(t.rest, k);
    }
  }

  lemma FreeChanged(t: Tab, p: Path, raw: Option<string>)
    requires Wf(t) && p != [] && !HasKey(t, p) && !HasHost(t, p) && !HasBelow(t, p)
    ensures Changed(t, match raw case None => t case Some(r) => Append(t, p, Leaf(r)), p, raw)
  {
    hide Wf, Has, HasKey, HasHost, HasBelow, Append;
    if raw.Some? {
      AppendMeans(t, p, raw.value, p, "");
    }
    forall q, v ensures Has(match raw case None => t case Some(r) => Append(t, p, Leaf(r)), q, v) <==> ChangedHas(t, p, raw, q, v) {
      NotHeld(t, p, p, v);
      if p <= q {
        NotBelow(t, p, q, v);
      }
      if raw.Some? {
        AppendMeans(t, p, raw.value, q, v);
      }
    }
  }

  // Nothing is held below a path that leads nowhere.
  lemma {:induction false} NotBelow(t: Tab, p: Path, q: Path, v: string)
    requires !HasKey(t, p) && !HasHost(t, p) && !HasBelow(t, p) && p <= q
    ensures !Has(t, q, v)
  {
    if t.Item? {
      NotBelow(t.rest, p, q, v);
      PrefixesMeet(t.key, p, q);
    }
  }

  /** The key holds a table whose text is the very value written: the program leaves it. */
  predicate KeptTable(t: Tab, p: Path, raw: Option<string>, keep: bool) {
    raw.Some? && keep && Walk(t, p).Leads? && Walk(t, p).val.Sub?
  }

  /** Put and removal law, for every key: refused exactly when a plain value stands above the key, or
      when the key stands above others without being one. Otherwise the key holds the value written,
      or none, with nothing below it, and everything else is as before. A table whose text is the
      value written is left. */
  lemma {:induction false} SetLaw(t: Tab, p: Path, raw: Option<string>, keep: bool)
    requires Wf(t) && p != []
    ensures SetKey(t, p, raw, keep).None? <==> Walk(t, p).Stuck? || Walk(t, p).Above?
    ensures SetKey(t, p, raw, keep).Some? ==>
              var t' := SetKey(t, p, raw, keep).value;
              if KeptTable(t, p, raw, keep) then t' == t else Changed(t, t', p, raw)
    decreases t, 1
  {
    hide Wf, Has, Changed, Walk;
    if HasKey(t, p) {
      HasAtKey(t, p, p, "");
      match raw
      case None => DropAtKey(t, p);
      case Some(r) =>
        WriteAtKey(t, p, r);
        if ValueAt(t, p).Leaf? && Unquote(ValueAt(t, p).raw) == Unquote(r) {
          SameAtKey(t, p, r);
        }
    } else if HasHost(t, p) {
      SetInHost(t, p, raw, keep);
    } else {
      WalkFree(t, p);
      if !HasBelow(t, p) {
        FreeChanged(t, p, raw);
      }
    }
  }

  lemma {:induction false} SetInHost(t: Tab, p: Path, raw: Option<string>, keep: bool)
    requires Wf(t) && p != [] && !HasKey(t, p) && HasHost(t, p)
    ensures SetKey(t, p, raw, keep).None? <==> Walk(t, p).Stuck? || Walk(t, p).Above?
    ensures SetKey(t, p, raw, keep).Some? ==>
              var t' := SetKey(t, p, raw, keep).value;
              if KeptTable(t, p, raw, keep) then t' == t else Changed(t, t', p, raw)
    decreases t, 0
  {
    hide Wf, Has, Changed, Walk;
    HostIsKey(t, p);
    var k := HostKey(t, p);
    var val := ValueAt(t, k);
    HasAtKey(t, k, p, "");
    if val.Sub? {
      SetLaw(val.tab, p[|k|..], raw, keep);
      var sub := SetKey(val.tab, p[|k|..], raw, keep);
      if sub.Some? && !KeptTable(val.tab, p[|k|..], raw, keep) {
        ChangeInHost(t, k, sub.value, p, raw);
        SameReplaced(t, k);
        if sub.value == Nil {
          EmptyInHost(t, k, p, raw);
        }
      }
    }
  }
}
