/** New listening ports for the copy of an instance (panel/instances.go). */
module ListenPorts {
  import opened Wrappers
  import opened InlineTables
  import opened InlineValues
  import opened TomlLines
  import opened SetKeys

  /** A key that opens a listening port, over UDP or not. */
  datatype ListenKey = ListenKey(key: Path, udp: bool)

  const BIND: Path := ["bindPort"]
  const WEB: Path := ["webServer", "port"]

  /** Every listening key, bindPort first. */
  const LISTEN_KEYS: seq<ListenKey> := [
    ListenKey(BIND, false),
    ListenKey(["kcpBindPort"], true),
    ListenKey(["quicBindPort"], true),
    ListenKey(["vhostHTTPPort"], false),
    ListenKey(["vhostHTTPSPort"], false),
    ListenKey(["tcpmuxHTTPConnectPort"], false),
    ListenKey(WEB, false),
    ListenKey(["sshTunnelGateway", "bindPort"], false)
  ]

  datatype Program = Frps | Frpc

  datatype Failure = NoFreePort(key: Path) | StillTaken(port: int)

  // ---- Numbers ----

  function Digit(n: nat): char
    requires n < 10
  {
    ('0' as int + n) as char
  }

  function Decimal(n: nat): string {
    if n < 10 then [Digit(n)] else Decimal(n / 10) + [Digit(n % 10)]
  }

  predicate AllDigits(s: string) {
    forall i :: 0 <= i < |s| ==> '0' <= s[i] <= '9'
  }

  predicate IsNumber(s: string) {
    s != [] && AllDigits(s)
  }

  function NumberOf(s: string): nat
    requires AllDigits(s)
  {
    if s == [] then 0 else NumberOf(s[..|s| - 1]) * 10 + (s[|s| - 1] as int - '0' as int)
  }

  /** Integer value of a raw value, 0 for anything else. */
  function IntOf(raw: string): int {
    if IsNumber(raw) then NumberOf(raw)
    else if raw != [] && raw[0] == '-' && IsNumber(raw[1..]) then 0 - (NumberOf(raw[1..]) as int)
    else 0
  }

  lemma {:induction false} DecimalReads(n: nat)
    ensures IsNumber(Decimal(n)) && NumberOf(Decimal(n)) == n
  {
    if n >= 10 {
      DecimalReads(n / 10);
      var s := Decimal(n);
      assert s[..|s| - 1] == Decimal(n / 10);
    }
  }

  /** Port given by a key, 0 without one. */
  function PortOf(lines: seq<Line>, k: Path): int {
    match ValueOf(lines, k)
    case Some(raw) => IntOf(raw)
    case None => 0
  }

  /** Port that a key stands for: a server without bindPort listens on 7000. */
  function Effective(lines: seq<Line>, bin: Program, k: Path): int {
    if k == BIND && bin.Frps? && PortOf(lines, k) == 0 then 7000 else PortOf(lines, k)
  }

  // ---- Every listening port ----

  /** Ports of the visitors, among the lines of tunnels; `on`: under a [[visitors]] header. */
  function VisitorPorts(held: seq<Line>, on: bool): seq<int> {
    if held == [] then []
    else
      match held[0]
      case Header(name, isArray) => VisitorPorts(held[1..], isArray && name == ["visitors"])
      case Entry(key, raw, _) =>
        (if on && key == BIND && IntOf(raw) > 0 then [IntOf(raw)] else []) + VisitorPorts(held[1..], on)
      case _ => VisitorPorts(held[1..], on)
  }

  function KeyPorts(lines: seq<Line>, keys: seq<ListenKey>): seq<int> {
    if keys == [] then []
    else (if PortOf(lines, keys[0].key) > 0 then [PortOf(lines, keys[0].key)] else []) + KeyPorts(lines, keys[1..])
  }

  /** Listening ports of a configuration. */
  function Ports(lines: seq<Line>, bin: Program): seq<int> {
    KeyPorts(lines, LISTEN_KEYS)
    + (if bin.Frps? && PortOf(lines, BIND) == 0 then [7000] else [])
    + VisitorPorts(HeldLines(lines), false)
  }

  /** A visitor opens the port: an entry `bindPort` whose last header above, among the lines of tunnels, is that
      of a visitor. */
  ghost predicate VisitorOpens(held: seq<Line>, p: int) {
    exists h, i :: 0 <= h < i < |held| && VisitorEntry(held, p, h, i)
  }

  ghost predicate VisitorEntry(held: seq<Line>, p: int, h: int, i: int) {
    && 0 <= h < i < |held| && held[h] == Header(["visitors"], true)
    && (forall j :: h < j <= i ==> !held[j].Header?)
    && held[i].Entry? && held[i].key == ["bindPort"] && IntOf(held[i].raw) == p > 0
  }

  // With `on`, the entries in front of the first header count too.
  ghost predicate OpenedFrom(held: seq<Line>, on: bool, p: int) {
    || VisitorOpens(held, p)
    || (on && exists i :: 0 <= i < |held| && (forall j :: 0 <= j <= i ==> !held[j].Header?)
                          && held[i].Entry? && held[i].key == ["bindPort"] && IntOf(held[i].raw) == p > 0)
  }

  lemma OpenedFirst(held: seq<Line>, on: bool, p: int)
    requires held != []
    ensures OpenedFrom(held, on, p)
       <==> (on && held[0].Entry? && held[0].key == ["bindPort"] && IntOf(held[0].raw) == p > 0)
            || OpenedFrom(held[1..], if held[0].Header? then held[0] == Header(["visitors"], true) else on, p)
  {
    hide IntOf;
    var rest := held[1..];
    var on' := if held[0].Header? then held[0] == Header(["visitors"], true) else on;
    assert forall j :: 0 <= j < |rest| ==> rest[j] == held[j + 1];
    if VisitorOpens(held, p) {
      var h, i :| 0 <= h < i < |held| && VisitorEntry(held, p, h, i);
      if h > 0 {
        assert VisitorEntry(rest, p, h - 1, i - 1);
      } else {
        assert rest[i - 1] == held[i] && forall j :: 0 <= j <= i - 1 ==> !rest[j].Header?;
      }
    }
    if VisitorOpens(rest, p) {
      var h, i :| 0 <= h < i < |rest| && VisitorEntry(rest, p, h, i);
      assert forall j :: h + 1 < j <= i + 1 ==> held[j] == rest[j - 1];
      assert VisitorEntry(held, p, h + 1, i + 1);
    }
    OpenedSoon(held, on, p);
    if on' && exists i :: 0 <= i < |rest| && (forall j :: 0 <= j <= i ==> !rest[j].Header?)
                          && rest[i].Entry? && rest[i].key == ["bindPort"] && IntOf(rest[i].raw) == p > 0 {
      var i :| 0 <= i < |rest| && (forall j :: 0 <= j <= i ==> !rest[j].Header?)
               && rest[i].Entry? && rest[i].key == ["bindPort"] && IntOf(rest[i].raw) == p > 0;
      assert forall j :: 1 <= j <= i + 1 ==> held[j] == rest[j - 1];
      if held[0].Header? {
        assert VisitorEntry(held, p, 0, i + 1);
      } else {
        assert held[i + 1] == rest[i] && forall j :: 0 <= j <= i + 1 ==> !held[j].Header?;
      }
    }
  }

  lemma OpenedSoon(held: seq<Line>, on: bool, p: int)
    requires held != []
    ensures on && (exists i :: 0 <= i < |held| && (forall j :: 0 <= j <= i ==> !held[j].Header?)
                               && held[i].Entry? && held[i].key == ["bindPort"] && IntOf(held[i].raw) == p > 0)
       ==> (held[0].Entry? && held[0].key == ["bindPort"] && IntOf(held[0].raw) == p > 0)
           || (!held[0].Header? && OpenedFrom(held[1..], on, p))
  {
    hide IntOf, VisitorOpens;
    if on {
      if i :| 0 <= i < |held| && (forall j :: 0 <= j <= i ==> !held[j].Header?)
              && held[i].Entry? && held[i].key == ["bindPort"] && IntOf(held[i].raw) == p > 0 {
        if i > 0 {
          var rest := held[1..];
          assert rest[i - 1] == held[i] && forall j :: 0 <= j <= i - 1 ==> rest[j] == held[j + 1];
        }
      }
    }
  }

  lemma {:induction false} VisitorPortsMean(held: seq<Line>, on: bool, p: int)
    ensures p in VisitorPorts(held, on) <==> OpenedFrom(held, on, p)
  {
    if held != [] {
      hide OpenedFrom, IntOf;
      OpenedFirst(held, on, p);
      match held[0]
      case Header(name, isArray) => VisitorPortsMean(held[1..], isArray && name == ["visitors"], p);
      case Entry(_, _, _) => VisitorPortsMean(held[1..], on, p);
      case _ => VisitorPortsMean(held[1..], on, p);
    }
  }

  lemma {:induction false} KeyPortsMean(lines: seq<Line>, keys: seq<ListenKey>, p: int)
    ensures p in KeyPorts(lines, keys) <==> exists j :: 0 <= j < |keys| && PortOf(lines, keys[j].key) == p > 0
  {
    hide PortOf;
    if keys != [] {
      KeyPortsMean(lines, keys[1..], p);
      if j :| 0 <= j < |keys| && PortOf(lines, keys[j].key) == p > 0 {
        assert j > 0 ==> keys[1..][j - 1] == keys[j];
      }
      if j :| 0 <= j < |keys[1..]| && PortOf(lines, keys[1..][j].key) == p > 0 {
        assert keys[j + 1] == keys[1..][j];
      }
    }
  }

  /** A configuration listens on the ports of its listening keys, a server without bindPort on 7000, and a
      visitor on its own. */
  lemma PortsMean(lines: seq<Line>, bin: Program, p: int)
    ensures p in Ports(lines, bin)
       <==> || (exists j :: 0 <= j < |LISTEN_KEYS| && PortOf(lines, LISTEN_KEYS[j].key) == p > 0)
            || (bin.Frps? && PortOf(lines, ["bindPort"]) == 0 && p == 7000)
            || VisitorOpens(HeldLines(lines), p)
  {
    hide PortOf, LISTEN_KEYS, HeldLines, VisitorPorts;
    KeyPortsMean(lines, LISTEN_KEYS, p);
    VisitorPortsMean(HeldLines(lines), false, p);
  }

  // ---- Drawing a port ----

  /** What the machine answers: is a port free, which port is drawn, at each moment. */
  datatype Machine = Machine(free: (nat, int, bool) -> bool, draw: nat -> nat)

  /** The port cannot be had: out of range, in use, or not free when asked. */
  ghost predicate Refused(m: Machine, used: set<int>, udp: bool, p: int) {
    !(1 <= p <= 65535) || p in used || exists t :: !m.free(t, p, udp)
  }

  /** None of the hundred ports from `base` on can be had. */
  ghost predicate NoneFromBase(m: Machine, used: set<int>, base: int, udp: bool) {
    base > 0 ==> forall p :: base <= p < base + 100 ==> Refused(m, used, udp, p)
  }

  function Drawn(m: Machine, t: nat): int {
    10000 + m.draw(t) % 22768
  }

  /** What a search may give: the first port from `base` on that can be had or, when there is none, one drawn
      between 10000 and 32767. */
  ghost predicate Picked(m: Machine, used: set<int>, base: int, udp: bool, port: int) {
    && 1 <= port <= 65535 && port !in used && (exists t :: m.free(t, port, udp))
    && (|| (base > 0 && base <= port < base + 100 && forall p :: base <= p < port ==> Refused(m, used, udp, p))
        || (NoneFromBase(m, used, base, udp) && 10000 <= port <= 32767 && exists t :: Drawn(m, t) == port))
  }

  /** Why a search gives nothing: two hundred draws in a row that cannot be had, after the ports from `base`. */
  ghost predicate NonePicked(m: Machine, used: set<int>, base: int, udp: bool) {
    && NoneFromBase(m, used, base, udp)
    && exists times: seq<nat> ::
         && |times| == 200
         && (forall i, j :: 0 <= i < j < 200 ==> times[i] < times[j])
         && forall i :: 0 <= i < 200 ==> Refused(m, used, udp, Drawn(m, times[i]))
  }

  /** A port of the machine that nobody uses, kept in `used'`; 0 if none was found. */
  method PickPort(m: Machine, used: set<int>, base: int, udp: bool, now: nat)
    returns (port: int, used': set<int>, now': nat)
    ensures port == 0 ==> used' == used && NonePicked(m, used, base, udp)
    ensures port != 0 ==> used' == used + {port} && Picked(m, used, base, udp, port)
    ensures now <= now'
  {
    now', used' := now, used;
    if base > 0 {
      for p := base to base + 100
        invariant now <= now'
        invariant forall q :: base <= q < p ==> Refused(m, used, udp, q)
      {
        if 1 <= p <= 65535 && p !in used {
          now' := now' + 1;
          if m.free(now' - 1, p, udp) {
            return p, used + {p}, now';
          }
        }
      }
    }
    ghost var times: seq<nat> := [];
    for i := 0 to 200
      invariant now <= now' && |times| == i
      invariant forall a, b :: 0 <= a < b < i ==> times[a] < times[b]
      invariant forall a :: 0 <= a < i ==> times[a] < now' && Refused(m, used, udp, Drawn(m, times[a]))
    {
      var p := 10000 + m.draw(now') % 22768;
      assert Drawn(m, now') == p;
      times := times + [now'];
      now' := now' + 1;
      if 1 <= p <= 65535 && p !in used {
        now' := now' + 1;
        if m.free(now' - 1, p, udp) {
          return p, used + {p}, now';
        }
      }
    }
    port := 0;
  }

  // ---- Rewriting the ports ----

  /** No value opens an inline table. */
  ghost predicate NoInline(lines: seq<Line>) {
    forall i: nat :: IsSetting(lines, i) ==> !Opens(lines[i].raw)
  }

  predicate IsListenKey(k: Path) {
    exists i :: 0 <= i < |LISTEN_KEYS| && LISTEN_KEYS[i].key == k
  }

  lemma ListenKeysApart(i: nat)
    requires i < |LISTEN_KEYS|
    ensures LISTEN_KEYS[i].key != [] && !TunnelName(LISTEN_KEYS[i].key[..1])
    ensures forall j :: 0 <= j < |LISTEN_KEYS| && j != i ==> LISTEN_KEYS[j].key != LISTEN_KEYS[i].key
    ensures LISTEN_KEYS[0].key == BIND
  {
    assert LISTEN_KEYS[i].key[..1] == [LISTEN_KEYS[i].key[0]];
  }

  // Setting one key: its port is the new one, every other port is as before.
  lemma PortsAfter(lines: seq<Line>, out: seq<Line>, key: Path, np: nat)
    requires KeysOnce(lines) && KeySet(lines, out, key, Decimal(np))
    ensures PortOf(out, key) == np
    ensures forall k :: k != key ==> PortOf(out, k) == PortOf(lines, k)
  {
    hide KeysOnce, Binds, ValueOf, IntOf, NumberOf, Decimal, HeldLines, Notes;
    DecimalIsInt(np);
    LooksUp(out, key, Decimal(np));
    forall k | k != key ensures ValueOf(out, k) == ValueOf(lines, k) {
      SameValueOf(lines, out, k);
    }
  }

  lemma DecimalIsInt(n: nat)
    ensures IntOf(Decimal(n)) == n
  {
    DecimalReads(n);
  }

  lemma SameValueOf(lines: seq<Line>, out: seq<Line>, k: Path)
    requires KeysOnce(lines) && KeysOnce(out) && forall val :: Binds(out, k, val) <==> Binds(lines, k, val)
    ensures ValueOf(out, k) == ValueOf(lines, k)
  {
    hide KeysOnce, Binds, ValueOf;
    if ValueOf(out, k).Some? {
      LooksUp(out, k, ValueOf(out, k).value);
      LooksUp(lines, k, ValueOf(out, k).value);
    }
    if ValueOf(lines, k).Some? {
      LooksUp(out, k, ValueOf(lines, k).value);
      LooksUp(lines, k, ValueOf(lines, k).value);
    }
  }

  /** Only listening keys may differ; tunnels and comments are as before. */
  ghost predicate OnlyPortsChange(lines: seq<Line>, out: seq<Line>) {
    && KeysOnce(out) && HeldLines(out) == HeldLines(lines) && Notes(out) == Notes(lines)
    && forall k, val :: !IsListenKey(k) ==> (Binds(out, k, val) <==> Binds(lines, k, val))
  }

  lemma StillOnlyPorts(lines: seq<Line>, cur: seq<Line>, out: seq<Line>, i: nat, raw: string)
    requires OnlyPortsChange(lines, cur) && i < |LISTEN_KEYS| && KeySet(cur, out, LISTEN_KEYS[i].key, raw)
    ensures OnlyPortsChange(lines, out)
  {
    hide KeysOnce, HeldLines, Notes, Binds;
    assert IsListenKey(LISTEN_KEYS[i].key);
  }

  /** The listening keys before `i` have their new ports: drawn outside `used0`, kept in `used`, and
      shared only by keys that stood for the same port. */
  ghost predicate Renewed(lines: seq<Line>, cur: seq<Line>, bin: Program, used0: set<int>, used: set<int>, i: nat)
    requires i <= |LISTEN_KEYS|
  {
    && (forall j :: 0 <= j < i ==>
          var k := LISTEN_KEYS[j].key;
          if Effective(lines, bin, k) == 0 then PortOf(cur, k) == 0
          else 1 <= PortOf(cur, k) <= 65535 && PortOf(cur, k) in used && PortOf(cur, k) !in used0)
    && forall a, b :: 0 <= a < b < i && PortOf(cur, LISTEN_KEYS[a].key) == PortOf(cur, LISTEN_KEYS[b].key) != 0 ==>
         Effective(lines, bin, LISTEN_KEYS[a].key) == Effective(lines, bin, LISTEN_KEYS[b].key)
  }

  /** Every listening key in use has a new port outside `used`; two keys share one only if they stood
      for the same port. */
  ghost predicate AllRenewed(lines: seq<Line>, out: seq<Line>, bin: Program, used: set<int>) {
    && (forall k :: IsListenKey(k) ==>
          if Effective(lines, bin, k) == 0 then PortOf(out, k) == 0
          else 1 <= PortOf(out, k) <= 65535 && PortOf(out, k) !in used)
    && forall k, k' :: IsListenKey(k) && IsListenKey(k') && PortOf(out, k) == PortOf(out, k') != 0 ==>
         Effective(lines, bin, k) == Effective(lines, bin, k')
  }

  /** The key was to get a new port. */
  ghost predicate Due(lines: seq<Line>, bin: Program, used: set<int>, all: bool, k: Path) {
    Effective(lines, bin, k) != 0 && (all || Effective(lines, bin, k) in used)
  }

  function BaseOf(bin: Program, k: Path): int {
    if k != WEB then 0 else if bin.Frps? then 7500 else 7400
  }

  /** The keys from `i` on, and before it those that were not to change, are as in the original. */
  ghost predicate Untouched(lines: seq<Line>, cur: seq<Line>, bin: Program, used0: set<int>, all: bool, i: nat)
    requires i <= |LISTEN_KEYS|
  {
    forall j :: 0 <= j < |LISTEN_KEYS| && (i <= j || !Due(lines, bin, used0, all, LISTEN_KEYS[j].key)) ==>
      PortOf(cur, LISTEN_KEYS[j].key) == PortOf(lines, LISTEN_KEYS[j].key)
  }

  /** How a key got its port: a UDP key that stood for the port of bindPort follows it, when that port is free
      over UDP too; any other draws one, the dashboard from its usual port on. */
  ghost predicate Chosen(m: Machine, lines: seq<Line>, out: seq<Line>, bin: Program, used: set<int>, k: ListenKey) {
    var follows := k.udp && Effective(lines, bin, k.key) == Effective(lines, bin, BIND);
    || (follows && PortOf(out, k.key) == PortOf(out, BIND) && exists t :: m.free(t, PortOf(out, BIND), true))
    || (&& (follows ==> exists t :: !m.free(t, PortOf(out, BIND), true))
        && exists held :: used <= held && Picked(m, held, BaseOf(bin, k.key), k.udp, PortOf(out, k.key)))
  }

  ghost predicate AllChosen(m: Machine, lines: seq<Line>, out: seq<Line>, bin: Program, used: set<int>, all: bool, n: nat)
    requires n <= |LISTEN_KEYS|
  {
    forall j :: 0 <= j < n && Due(lines, bin, used, all, LISTEN_KEYS[j].key) ==> Chosen(m, lines, out, bin, used, LISTEN_KEYS[j])
  }

  // A key drew a port of its own, or shares the new port of bindPort.
  lemma RenewedNext(lines: seq<Line>, cur: seq<Line>, out: seq<Line>, bin: Program, used0: set<int>,
                    used: set<int>, used': set<int>, i: nat, np: nat)
    requires i < |LISTEN_KEYS| && Renewed(lines, cur, bin, used0, used, i) && used <= used' && used0 <= used
    requires KeysOnce(cur) && KeySet(cur, out, LISTEN_KEYS[i].key, Decimal(np)) && 1 <= np <= 65535
    requires Effective(lines, bin, LISTEN_KEYS[i].key) != 0
    requires (np !in used && np in used')
          || (i > 0 && np == PortOf(cur, BIND) && Effective(lines, bin, BIND) == Effective(lines, bin, LISTEN_KEYS[i].key))
    ensures Renewed(lines, out, bin, used0, used', i + 1)
  {
    hide KeysOnce, KeySet, PortOf, Effective, Decimal, LISTEN_KEYS;
    ListenKeysApart(i);
    PortsAfter(cur, out, LISTEN_KEYS[i].key, np);
    forall j | 0 <= j < i ensures PortOf(out, LISTEN_KEYS[j].key) == PortOf(cur, LISTEN_KEYS[j].key) {
    }
    forall a | 0 <= a < i && PortOf(cur, LISTEN_KEYS[a].key) == np
      ensures Effective(lines, bin, LISTEN_KEYS[a].key) == Effective(lines, bin, LISTEN_KEYS[i].key)
    {
      assert PortOf(cur, LISTEN_KEYS[a].key) in used;
      assert a > 0 ==> PortOf(cur, LISTEN_KEYS[0].key) == PortOf(cur, LISTEN_KEYS[a].key);
    }
  }

  lemma UntouchedNext(lines: seq<Line>, cur: seq<Line>, out: seq<Line>, bin: Program, used0: set<int>, all: bool, i: nat, np: nat)
    requires i < |LISTEN_KEYS| && Untouched(lines, cur, bin, used0, all, i)
    requires KeysOnce(cur) && KeySet(cur, out, LISTEN_KEYS[i].key, Decimal(np))
    requires Due(lines, bin, used0, all, LISTEN_KEYS[i].key)
    ensures Untouched(lines, out, bin, used0, all, i + 1)
  {
    hide KeysOnce, KeySet, PortOf, Effective, Decimal, LISTEN_KEYS;
    ListenKeysApart(i);
    PortsAfter(cur, out, LISTEN_KEYS[i].key, np);
    forall j | 0 <= j < |LISTEN_KEYS| && j != i ensures PortOf(out, LISTEN_KEYS[j].key) == PortOf(cur, LISTEN_KEYS[j].key) {
    }
  }

  lemma ChosenNext(m: Machine, lines: seq<Line>, cur: seq<Line>, out: seq<Line>, bin: Program, used: set<int>, all: bool,
                   i: nat, np: nat)
    requires i < |LISTEN_KEYS| && AllChosen(m, lines, cur, bin, used, all, i)
    requires KeysOnce(cur) && KeySet(cur, out, LISTEN_KEYS[i].key, Decimal(np))
    requires Chosen(m, lines, out, bin, used, LISTEN_KEYS[i])
    ensures AllChosen(m, lines, out, bin, used, all, i + 1)
  {
    hide KeysOnce, KeySet, PortOf, Effective, Decimal, LISTEN_KEYS, Picked;
    ListenKeysApart(i);
    PortsAfter(cur, out, LISTEN_KEYS[i].key, np);
    forall j | 0 <= j < i && Due(lines, bin, used, all, LISTEN_KEYS[j].key)
      ensures Chosen(m, lines, out, bin, used, LISTEN_KEYS[j])
    {
      assert PortOf(out, BIND) == PortOf(cur, BIND) && PortOf(out, LISTEN_KEYS[j].key) == PortOf(cur, LISTEN_KEYS[j].key);
    }
  }

  // What the port of key `i` is, right after it was written.
  lemma FollowsBind(m: Machine, lines: seq<Line>, cur: seq<Line>, out: seq<Line>, bin: Program, used: set<int>, i: nat,
                    np: nat, t: nat)
    requires 0 < i < |LISTEN_KEYS| && KeysOnce(cur) && KeySet(cur, out, LISTEN_KEYS[i].key, Decimal(np))
    requires np == PortOf(cur, BIND) && m.free(t, np, true) && LISTEN_KEYS[i].udp
    requires Effective(lines, bin, LISTEN_KEYS[i].key) == Effective(lines, bin, BIND)
    ensures Chosen(m, lines, out, bin, used, LISTEN_KEYS[i])
  {
    hide KeysOnce, KeySet, PortOf, Effective, Decimal, LISTEN_KEYS, Picked;
    ListenKeysApart(i);
    PortsAfter(cur, out, LISTEN_KEYS[i].key, np);
  }

  lemma DrawsItsOwn(m: Machine, lines: seq<Line>, cur: seq<Line>, out: seq<Line>, bin: Program, used: set<int>, held: set<int>,
                    i: nat, np: nat, t: nat)
    requires i < |LISTEN_KEYS| && KeysOnce(cur) && KeySet(cur, out, LISTEN_KEYS[i].key, Decimal(np))
    requires used <= held && Picked(m, held, BaseOf(bin, LISTEN_KEYS[i].key), LISTEN_KEYS[i].udp, np)
    requires LISTEN_KEYS[i].udp && Effective(lines, bin, LISTEN_KEYS[i].key) == Effective(lines, bin, BIND) ==>
               i > 0 && !m.free(t, PortOf(cur, BIND), true)
    ensures Chosen(m, lines, out, bin, used, LISTEN_KEYS[i])
  {
    hide KeysOnce, KeySet, PortOf, Effective, Decimal, LISTEN_KEYS, Picked, BaseOf;
    ListenKeysApart(i);
    PortsAfter(cur, out, LISTEN_KEYS[i].key, np);
  }

  /** Nothing but a visitor can still hold a port that is taken. */
  lemma OnlyVisitorsKeep(m: Machine, lines: seq<Line>, out: seq<Line>, bin: Program, used: set<int>, all: bool, p: int)
    requires AllChosen(m, lines, out, bin, used, all, |LISTEN_KEYS|) && Untouched(lines, out, bin, used, all, |LISTEN_KEYS|)
    requires HeldLines(out) == HeldLines(lines) && p in Ports(out, bin) && p in used
    ensures VisitorOpens(HeldLines(lines), p)
  {
    hide PortOf, HeldLines, VisitorOpens, Ports, LISTEN_KEYS, Picked;
    PortsMean(out, bin, p);
    BindAndWebAreTcp();
    if j :| 0 <= j < |LISTEN_KEYS| && PortOf(out, LISTEN_KEYS[j].key) == p > 0 {
      KeyIsFree(m, lines, out, bin, used, all, j);
      assert false;
    }
    if bin.Frps? && PortOf(out, BIND) == 0 && p == 7000 {
      KeyIsFree(m, lines, out, bin, used, all, 0);
      assert false;
    }
  }

  // A listening key no longer holds a port that is taken.
  lemma KeyIsFree(m: Machine, lines: seq<Line>, out: seq<Line>, bin: Program, used: set<int>, all: bool, j: nat)
    requires AllChosen(m, lines, out, bin, used, all, |LISTEN_KEYS|) && Untouched(lines, out, bin, used, all, |LISTEN_KEYS|)
    requires j < |LISTEN_KEYS|
    ensures PortOf(out, LISTEN_KEYS[j].key) > 0 ==> PortOf(out, LISTEN_KEYS[j].key) !in used
    ensures bin.Frps? && PortOf(out, BIND) == 0 ==> 7000 !in used
  {
    hide PortOf, Effective, LISTEN_KEYS;
    ListenKeysApart(j);
    var k := LISTEN_KEYS[j];
    BindAndWebAreTcp();
    EffectiveIs(lines, bin, k.key);
    EffectiveIs(lines, bin, BIND);
    if Due(lines, bin, used, all, k.key) {
      assert Chosen(m, lines, out, bin, used, k);
      if k.udp && Effective(lines, bin, k.key) == Effective(lines, bin, BIND) {
        assert Due(lines, bin, used, all, LISTEN_KEYS[0].key);
        assert Chosen(m, lines, out, bin, used, LISTEN_KEYS[0]);
      }
    }
    if Due(lines, bin, used, all, LISTEN_KEYS[0].key) {
      assert Chosen(m, lines, out, bin, used, LISTEN_KEYS[0]);
    }
  }

  lemma BindAndWebAreTcp()
    ensures |LISTEN_KEYS| > 0 && LISTEN_KEYS[0] == ListenKey(BIND, false)
    ensures forall j :: 0 <= j < |LISTEN_KEYS| && LISTEN_KEYS[j].key == WEB ==> !LISTEN_KEYS[j].udp
  {
  }

  lemma EffectiveIs(lines: seq<Line>, bin: Program, k: Path)
    ensures Effective(lines, bin, k) == if k == BIND && bin.Frps? && PortOf(lines, k) == 0 then 7000 else PortOf(lines, k)
  {
  }

  /** Gives a free port to every listening key (or only to those taken, unless `all`). On success no
      listening port was taken before, and two keys share a port only if they stood for the same one. */
  method RewriteListenPorts(lines: seq<Line>, bin: Program, used: set<int>, all: bool, m: Machine)
    returns (r: Result<seq<Line>, Failure>)
    requires KeysOnce(lines) && NoInline(lines)
    ensures r.Ok? ==> OnlyPortsChange(lines, r.value)
    ensures r.Ok? ==> forall p :: p in Ports(r.value, bin) ==> p !in used
    ensures r.Ok? && all ==> AllRenewed(lines, r.value, bin, used)
    ensures r.Ok? ==> Untouched(lines, r.value, bin, used, all, |LISTEN_KEYS|)
    ensures r.Ok? ==> AllChosen(m, lines, r.value, bin, used, all, |LISTEN_KEYS|)
    ensures r.Err? && r.error.NoFreePort? ==>
              exists j, held :: 0 <= j < |LISTEN_KEYS| && r.error.key == LISTEN_KEYS[j].key
                && Due(lines, bin, used, all, r.error.key) && used <= held
                && NonePicked(m, held, BaseOf(bin, r.error.key), LISTEN_KEYS[j].udp)
    ensures r.Err? && r.error.StillTaken? ==> r.error.port in used && VisitorOpens(HeldLines(lines), r.error.port)
  {
    hide KeysOnce, KeySet, PortOf, Decimal, LISTEN_KEYS, OnlyPortsChange, Ports, Binds, HeldLines, Notes, NoInline, Renewed, AllRenewed,
      Untouched, AllChosen, Chosen, Picked, NonePicked, VisitorOpens;
    var cur, held, now := lines, used, 0;
    var bind, newBind := Effective(lines, bin, BIND), 0;
    StartsAsIs(lines, bin, used, all, m);
    BindAndWebAreTcp();
    for i := 0 to |LISTEN_KEYS|
      invariant OnlyPortsChange(lines, cur) && KeysOnce(cur) && used <= held
      invariant all ==> Renewed(lines, cur, bin, used, held, i)
      invariant Untouched(lines, cur, bin, used, all, i)
      invariant AllChosen(m, lines, cur, bin, used, all, i)
      invariant newBind == 0 ==> i == 0 || !Due(lines, bin, used, all, BIND)
      invariant newBind != 0 ==> i > 0 && newBind == PortOf(cur, BIND) && 1 <= newBind <= 65535 && newBind in held
    {
      ListenKeysApart(i);
      var k := LISTEN_KEYS[i];
      var p := Effective(lines, bin, k.key);
      if p == 0 || (!all && p !in used) {
        LeftAlone(lines, cur, bin, used, held, all, i);
        NoneChosen(m, lines, cur, bin, used, all, i);
        continue;
      }
      var np, held' := 0, held;
      var asked := now;
      now := now + 1;
      var follows := k.udp && p == bind && newBind != 0 && m.free(asked, newBind, true);
      if follows {
        np := newBind;
      } else if k.key == WEB {
        np, held', now := PickPort(m, held, if bin.Frps? then 7500 else 7400, false, now);
      } else {
        np, held', now := PickPort(m, held, 0, k.udp, now);
      }
      if np == 0 {
        assert NonePicked(m, held, BaseOf(bin, k.key), k.udp);
        return Err(NoFreePort(k.key));
      }
      var out := SetTomlKey(cur, k.key, Decimal(np));
      if follows {
        FollowsBind(m, lines, cur, out, bin, used, i, np, asked);
      } else {
        assert Picked(m, held, BaseOf(bin, k.key), k.udp, np);
        DrawsItsOwn(m, lines, cur, out, bin, used, held, i, np, asked);
      }
      ChosenNext(m, lines, cur, out, bin, used, all, i, np);
      StillOnlyPorts(lines, cur, out, i, Decimal(np));
      if all {
        RenewedNext(lines, cur, out, bin, used, held, held', i, np);
      }
      UntouchedNext(lines, cur, out, bin, used, all, i, np);
      PortsAfter(cur, out, k.key, np);
      if k.key == BIND {
        newBind := np;
      }
      cur, held := out, held';
      assert KeysOnce(cur) by { SetOnce(lines, cur); }
    }
    var ports := Ports(cur, bin);
    for i := 0 to |ports|
      invariant forall j :: 0 <= j < i ==> ports[j] !in used
    {
      if ports[i] in used {
        KeepsHeld(lines, cur);
        OnlyVisitorsKeep(m, lines, cur, bin, used, all, ports[i]);
        return Err(StillTaken(ports[i]));
      }
    }
    if all {
      RenewedAll(lines, cur, bin, used, held);
    }
    r := Ok(cur);
  }

  lemma RenewedAll(lines: seq<Line>, out: seq<Line>, bin: Program, used0: set<int>, used: set<int>)
    requires Renewed(lines, out, bin, used0, used, |LISTEN_KEYS|)
    ensures AllRenewed(lines, out, bin, used0)
  {
    hide PortOf, Effective;
  }

  lemma KeepsHeld(lines: seq<Line>, out: seq<Line>)
    requires OnlyPortsChange(lines, out)
    ensures HeldLines(out) == HeldLines(lines)
  {
  }

  lemma NoneChosen(m: Machine, lines: seq<Line>, cur: seq<Line>, bin: Program, used: set<int>, all: bool, i: nat)
    requires i < |LISTEN_KEYS| && AllChosen(m, lines, cur, bin, used, all, i)
    requires !Due(lines, bin, used, all, LISTEN_KEYS[i].key)
    ensures AllChosen(m, lines, cur, bin, used, all, i + 1)
  {
    hide Chosen, LISTEN_KEYS;
  }

  lemma SetOnce(lines: seq<Line>, out: seq<Line>)
    requires OnlyPortsChange(lines, out)
    ensures KeysOnce(out)
  {
  }

  lemma StartsAsIs(lines: seq<Line>, bin: Program, used: set<int>, all: bool, m: Machine)
    requires KeysOnce(lines)
    ensures OnlyPortsChange(lines, lines) && Renewed(lines, lines, bin, used, used, 0)
    ensures Untouched(lines, lines, bin, used, all, 0) && AllChosen(m, lines, lines, bin, used, all, 0)
  {
  }

  // A key without a port, or whose port nobody has: nothing to do.
  lemma LeftAlone(lines: seq<Line>, cur: seq<Line>, bin: Program, used0: set<int>, used: set<int>, all: bool, i: nat)
    requires i < |LISTEN_KEYS| && Untouched(lines, cur, bin, used0, all, i)
    requires !Due(lines, bin, used0, all, LISTEN_KEYS[i].key)
    requires all ==> Renewed(lines, cur, bin, used0, used, i)
    ensures Untouched(lines, cur, bin, used0, all, i + 1)
    ensures all ==> Renewed(lines, cur, bin, used0, used, i + 1)
  {
    hide PortOf, LISTEN_KEYS;
  }
}
