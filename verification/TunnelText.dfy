/** Writing tunnels and visitors as blocks of a configuration file, and reading the blocks back. */
module TunnelText {
  import opened Wrappers
  import opened TomlStrings
  import opened TextLines
  import opened TomlText
  import opened TomlValues
  import InlineScan
  import InlineText
  import opened DomainText
  import opened DomainLists
  import opened Tunnels

  // ---- Lines of a file ----

  /** Ports of a range block; remote is empty for a single range. */
  datatype Range = Range(local: string, remote: string)

  /** sub: name of a sub-table below its tunnel; value: all the text behind the `=`; tail: the same,
      spaces at its end kept. */
  datatype TextLine =
    | RangeLine(range: Range)
    | EndLine
    | HeadLine(visitors: bool)
    | SectionLine(sub: Option<string>)
    | AssignLine(assign: Assign, value: string, tail: string)
    | OtherLine

  const PAIR_HEAD := "{{- range $_, $v := parseNumberRangePair \""
  const ONE_HEAD := "{{- range $_, $v := parseNumberRange \""
  const RANGE_TAIL := "\" }}"
  const END_TEXT := "{{- end }}"
  const PROXY_HEAD := "[[proxies]]"
  const VISITOR_HEAD := "[[visitors]]"

  function FindQuote(s: string): (n: nat)
    ensures n <= |s| && (n < |s| ==> s[n] == '\"') && forall k :: 0 <= k < n ==> s[k] != '\"'
  {
    if s == [] || s[0] == '\"' then 0 else 1 + FindQuote(s[1..])
  }

  /** The text up to the closing of a range line, None if it does not end there. */
  function LastPort(s: string): Option<string> {
    if s[FindQuote(s)..] == RANGE_TAIL then Some(s[..FindQuote(s)]) else None
  }

  /** Ports of the range line of a template. */
  function RangeOf(line: string): Option<Range> {
    if StartsWith(line, 0, PAIR_HEAD) then
      var s := line[|PAIR_HEAD|..];
      var q := FindQuote(s);
      if !StartsWith(s, q, "\" \"") then None
      else
        match LastPort(s[q + 3..])
        case Some(remote) => Some(Range(s[..q], remote))
        case None => None
    else if StartsWith(line, 0, ONE_HEAD) then
      match LastPort(line[|ONE_HEAD|..])
      case Some(local) => Some(Range(local, ""))
      case None => None
    else None
  }

  /** Name between the brackets of a header line. */
  function HeaderName(line: string): string {
    var code := ValueText(line);
    var s := if StartsWith(code, 0, "[[") then code[2..] else if StartsWith(code, 0, "[") then code[1..] else code;
    var inner := if EndsWith(s, "]]") then s[..|s| - 2] else if EndsWith(s, "]") then s[..|s| - 1] else s;
    InlineText.Dotted(InlineScan.KeyPath(inner))
  }

  function BelowTunnel(name: string): Option<string> {
    var n := if StartsWith(name, 0, "proxies.") then 8 else if StartsWith(name, 0, "visitors.") then 9 else |name|;
    if n < |name| && forall k :: n <= k < |name| ==> !LineBreak(name[k]) then Some(name[n..]) else None
  }

  /** The text behind the `=` of a line, where the key ends at `eq` once spaces are left out. */
  function Behind(text: string, eq: nat): string {
    var t := TrimLeft(text);
    if eq < |t| then TrimLeft(t[eq + 1..]) else []
  }

  function ReadLine(text: string): TextLine {
    var line := Trim(text);
    if line == [] || line[0] == '#' then OtherLine
    else if RangeOf(line).Some? then RangeLine(RangeOf(line).value)
    else if line == END_TEXT then EndLine
    else if line == PROXY_HEAD then HeadLine(false)
    else if line == VISITOR_HEAD then HeadLine(true)
    else if line[0] == '[' then SectionLine(BelowTunnel(HeaderName(line)))
    else
      match KeyEnd(line, 0, None)
      case None => OtherLine
      case Some(eq) =>
        AssignLine(Assign(Unquoted(Trim(line[..eq])), ValueText(line[eq + 1..])), Trim(line[eq + 1..]), Behind(text, eq))
  }

  // ---- Reading blocks ----

  datatype Block = Block(values: map<string, string>, raw: map<string, string>, order: seq<string>, range: Option<Range>)

  /** What the next line belongs to: nothing, a multi-line string, an array, or an inline table of the
      connection part; `raw` is the text of the value so far. */
  datatype Mode =
    | Ready
    | InString(key: string, delim: string, raw: string)
    | InArray(key: string, raw: string)
    | InTable(depth: int)

  /** cur: the kind of the block being read (visitors or not); pending: a range line just read;
      prefix: the sub-table being read. */
  datatype Parsed = Parsed(
    proxies: seq<Block>, visitors: seq<Block>, cur: Option<bool>, pending: Option<Range>, prefix: string, mode: Mode)

  const START := Parsed([], [], None, None, "", Ready)

  function Put(b: Block, a: Assign): Block {
    Block(b.values[a.key := Unquote(a.raw)], b.raw[a.key := a.raw],
          if a.key in b.raw then b.order else b.order + [a.key], b.range)
  }

  function PutLast(bs: seq<Block>, a: Assign): seq<Block> {
    if bs == [] then bs else bs[..|bs| - 1] + [Put(bs[|bs| - 1], a)]
  }

  /** The value of a key is known: it goes to the block being read. */
  function Store(st: Parsed, key: string, raw: string): Parsed {
    var a := Assign(st.prefix + key, raw);
    var done := st.(mode := Ready);
    if st.cur == Some(true) then done.(visitors := PutLast(st.visitors, a))
    else if st.cur == Some(false) then done.(proxies := PutLast(st.proxies, a))
    else done
  }

  /** An array goes on until its brackets are closed. */
  function Gather(st: Parsed, key: string, raw: string): Parsed {
    if OpenArray(raw) then st.(mode := InArray(key, raw)) else Store(st, key, raw)
  }

  function StartValue(st: Parsed, a: Assign, value: string, tail: string): Parsed {
    if LeftOpen(value) then st.(mode := InString(a.key, Delim(value), tail))
    else if st.cur.None? && StartsWith(a.raw, 0, "{") && OpenDepth(value) > 0 then st.(mode := InTable(OpenDepth(value)))
    else Gather(st, a.key, a.raw)
  }

  /** A line that continues nothing. */
  function Open(st: Parsed, text: string): Parsed {
    match ReadLine(text)
    case RangeLine(r) => st.(pending := Some(r))
    case EndLine => st
    case HeadLine(visitors) =>
      var b := Block(map[], map[], [], st.pending);
      if visitors then st.(visitors := st.visitors + [b], cur := Some(true), pending := None, prefix := "")
      else st.(proxies := st.proxies + [b], cur := Some(false), pending := None, prefix := "")
    case SectionLine(sub) =>
      if st.cur.Some? && sub.Some? then st.(prefix := sub.value + ".") else st.(cur := None, prefix := "")
    case AssignLine(a, value, tail) => StartValue(st, a, value, tail)
    case OtherLine => st
  }

  function Step(st: Parsed, text: string): Parsed {
    match st.mode
    case Ready => Open(st, text)
    case InString(key, delim, raw) =>
      var raw' := raw + "\n" + text;
      if Contains(text, delim) then Store(st, key, raw') else st.(mode := InString(key, delim, raw'))
    case InArray(key, raw) =>
      var more := ValueText(text);
      Gather(st, key, if more == [] then raw else raw + "\n" + more)
    case InTable(depth) =>
      var d := depth + OpenDepth(text);
      st.(mode := if d > 0 then InTable(d) else Ready)
  }

  function Feed(st: Parsed, lines: seq<string>): Parsed
    decreases |lines|
  {
    if lines == [] then st else Feed(Step(st, lines[0]), lines[1..])
  }

  /** The end of the text ends the value being read. */
  function Finish(st: Parsed): Parsed {
    match st.mode
    case InString(key, _, raw) => Store(st, key, raw)
    case InArray(key, raw) => Store(st, key, raw)
    case _ => st.(mode := Ready)
  }

  function ReadFrom(st: Parsed, lines: seq<string>): Parsed {
    Finish(Feed(st, lines))
  }

  function WithoutMark(text: string): string {
    if text != [] && text[0] == '\U{FEFF}' then text[1..] else text
  }

  /** The blocks of a file; None: it holds blocks in the form of an array, which are converted first. */
  function ReadText(text: string): Option<Parsed> {
    var t := WithoutMark(text);
    if HasArray(t) then None else Some(ReadFrom(START, Lines(t)))
  }

  /** A text reads the same with line feeds and with carriage returns in front of them. */
  lemma CrlfReads(text: string)
    requires NoReturn(text)
    ensures ReadText(Crlf(text)) == ReadText(text)
  {
    hide ReadFrom, Lines, HasArray;
    if text != [] {
      assert Crlf(text)[0] == '\U{FEFF}' <==> text[0] == '\U{FEFF}';
      assert text[0] == '\U{FEFF}' ==> Crlf(text)[1..] == Crlf(text[1..]);
    }
    CrlfLines(WithoutMark(text));
    CrlfArrays(WithoutMark(text));
  }

  // ---- The loops over the lines ----

  lemma NextRead(st: Parsed, lines: seq<string>, i: nat)
    requires i < |lines|
    ensures ReadFrom(st, lines[i..]) == ReadFrom(Step(st, lines[i]), lines[i + 1..])
  {
    assert lines[i..][0] == lines[i] && lines[i..][1..] == lines[i + 1..];
  }

  lemma NothingLeft(st: Parsed, lines: seq<string>)
    ensures ReadFrom(st, lines[|lines|..]) == Finish(st)
  {
  }

  /** Lines of a multi-line string, up to its closing quotes. */
  method StringLines(st: Parsed, lines: seq<string>, from: nat, key: string, delim: string, first: string)
    returns (st': Parsed, i: nat)
    requires from <= |lines|
    ensures from <= i <= |lines| && st'.mode.Ready?
    ensures ReadFrom(st', lines[i..]) == ReadFrom(st.(mode := InString(key, delim, first)), lines[from..])
  {
    hide ReadFrom, Store;
    i := from;
    var raw, closed := first, false;
    while i < |lines| && !closed
      invariant from <= i <= |lines|
      invariant ReadFrom(if closed then Store(st, key, raw) else st.(mode := InString(key, delim, raw)), lines[i..])
             == ReadFrom(st.(mode := InString(key, delim, first)), lines[from..])
    {
      NextRead(st.(mode := InString(key, delim, raw)), lines, i);
      StoreMode(st, InString(key, delim, raw), key, raw + "\n" + lines[i]);
      raw := raw + "\n" + lines[i];
      closed := Contains(lines[i], delim);
      i := i + 1;
    }
    st' := Store(st, key, raw);
    StoreMode(st, InString(key, delim, raw), key, raw);
    NothingLeft(st.(mode := InString(key, delim, raw)), lines);
    NothingLeft(st', lines);
  }

  lemma StoreMode(st: Parsed, mode: Mode, key: string, raw: string)
    ensures Store(st.(mode := mode), key, raw) == Store(st, key, raw) && Store(st, key, raw).mode == Ready
    ensures Finish(Store(st, key, raw)) == Store(st, key, raw)
  {
  }

  /** Lines of an array, up to its closing bracket. */
  method ArrayLines(st: Parsed, lines: seq<string>, from: nat, key: string, first: string) returns (st': Parsed, i: nat)
    requires from <= |lines| && OpenArray(first)
    ensures from <= i <= |lines| && st'.mode.Ready?
    ensures ReadFrom(st', lines[i..]) == ReadFrom(st.(mode := InArray(key, first)), lines[from..])
  {
    hide ReadFrom, Store, ValueText, OpenArray;
    i := from;
    var raw := first;
    while i < |lines| && OpenArray(raw)
      invariant from <= i <= |lines|
      invariant ReadFrom(Gather(st, key, raw), lines[i..]) == ReadFrom(st.(mode := InArray(key, first)), lines[from..])
    {
      NextRead(st.(mode := InArray(key, raw)), lines, i);
      var more := ValueText(lines[i]);
      var raw' := if more == [] then raw else raw + "\n" + more;
      StoreMode(st, InArray(key, raw), key, raw');
      raw := raw';
      i := i + 1;
    }
    st' := Store(st, key, raw);
    StoreMode(st, InArray(key, raw), key, raw);
    NothingLeft(st.(mode := InArray(key, raw)), lines);
    NothingLeft(st', lines);
  }

  /** Lines of an inline table of the connection part, up to its closing brace. */
  method TableLines(st: Parsed, lines: seq<string>, from: nat, depth: int) returns (i: nat)
    requires from <= |lines| && st.mode.Ready? && depth > 0
    ensures from <= i <= |lines|
    ensures ReadFrom(st, lines[i..]) == ReadFrom(st.(mode := InTable(depth)), lines[from..])
  {
    hide ReadFrom, OpenDepth;
    i := from;
    var d := depth;
    while i < |lines| && d > 0
      invariant from <= i <= |lines|
      invariant ReadFrom(st.(mode := if d > 0 then InTable(d) else Ready), lines[i..])
             == ReadFrom(st.(mode := InTable(depth)), lines[from..])
    {
      NextRead(st.(mode := InTable(d)), lines, i);
      d := d + OpenDepth(lines[i]);
      i := i + 1;
    }
    NothingLeft(st.(mode := InTable(d)), lines);
    NothingLeft(st, lines);
  }

  /** Reads the blocks of a text. */
  method ParseBlocks(text: string) returns (out: Option<Parsed>)
    ensures out == ReadText(text)
  {
    hide ReadFrom, Open, HasArray, Lines;
    var t := WithoutMark(text);
    if HasArray(t) {
      return None;
    }
    var lines := Lines(t);
    var st, i := START, 0;
    assert lines[0..] == lines;
    while i < |lines|
      invariant i <= |lines| && st.mode.Ready?
      invariant ReadFrom(st, lines[i..]) == ReadFrom(START, lines)
      decreases |lines| - i
    {
      NextRead(st, lines, i);
      var next := Open(st, lines[i]);
      i := i + 1;
      OpenedMode(st, lines[i - 1]);
      match next.mode
      case Ready => st := next;
      case InString(key, delim, first) => st, i := StringLines(next, lines, i, key, delim, first);
      case InArray(key, first) => st, i := ArrayLines(next, lines, i, key, first);
      case InTable(depth) =>
        st := next.(mode := Ready);
        i := TableLines(st, lines, i, depth);
    }
    NothingLeft(st, lines);
    out := Some(st);
  }

  lemma OpenedMode(st: Parsed, text: string)
    requires st.mode.Ready?
    ensures match Open(st, text).mode
            case InArray(_, raw) => OpenArray(raw)
            case InTable(depth) => depth > 0
            case _ => true
  {
    hide ReadLine, OpenArray, LeftOpen, OpenDepth;
  }

  lemma {:induction false} FeedApart(st: Parsed, a: seq<string>, b: seq<string>)
    ensures Feed(st, a + b) == Feed(Feed(st, a), b)
    decreases |a|
  {
    hide Step;
    if a == [] {
      assert a + b == b;
    } else {
      assert (a + b)[0] == a[0] && (a + b)[1..] == a[1..] + b;
      FeedApart(Step(st, a[0]), a[1..], b);
    }
  }

  // ---- Tunnels read from blocks ----

  function Get(b: Block, k: string): string {
    if k in b.values then b.values[k] else ""
  }

  predicate IsDigit(c: char) {
    '0' <= c <= '9'
  }

  /** An integer, possibly with underscores between its digits. */
  predicate IsInt(t: string) {
    t != [] && IsDigit(t[0]) && IsDigit(t[|t| - 1])
    && forall i :: 0 <= i < |t| ==> IsDigit(t[i]) || (t[i] == '_' && (i == 0 || t[i - 1] != '_'))
  }

  function NoUnderscores(t: string): string {
    if t == [] then [] else (if t[0] == '_' then [] else [t[0]]) + NoUnderscores(t[1..])
  }

  /** An integer without its underscores, any other text as it is. */
  function IntText(t: string): string {
    if IsInt(t) then NoUnderscores(t) else t
  }

  /** A public port other than 0. */
  predicate NonZero(t: string) {
    t != [] && (forall i :: 0 <= i < |t| ==> IsDigit(t[i])) && exists i :: 0 <= i < |t| && t[i] != '0'
  }

  /** An address without the brackets of an IPv6. */
  function Unbracket(addr: string): string {
    var t := Trim(addr);
    if |t| >= 2 && t[0] == '[' && t[|t| - 1] == ']' && (forall i :: 0 <= i < |t| ==> !LineBreak(t[i])) then t[1..|t| - 1]
    else addr
  }

  const PROXY_KEYS := [
    "name", "type", "localIP", "localPort", "remotePort", "customDomains", "secretKey",
    "transport.useCompression", "transport.useEncryption", "transport.proxyProtocolVersion"
  ]

  const VISITOR_KEYS := ["name", "type", "serverName", "secretKey", "bindAddr", "bindPort"]

  function ExtrasOf(order: seq<string>, raw: map<string, string>, known: seq<string>): seq<Extra> {
    if order == [] then []
    else (if order[0] in known || order[0] !in raw then [] else [Extra(order[0], raw[order[0]])]) + ExtrasOf(order[1..], raw, known)
  }

  function Or(a: string, b: string): string {
    if a == "" then b else a
  }

  function ProxyFromBlock(b: Block, uid: nat): Tunnel {
    var ranged := b.range.Some?;
    Tunnel(uid,
      if ranged then StripLoop(Get(b, "name"), FIRST, 0) else Get(b, "name"),
      Or(Get(b, "type"), "tcp"),
      Settings(
        Or(Get(b, "localIP"), "127.0.0.1"),
        if ranged then b.range.value.local else IntText(Get(b, "localPort")),
        if ranged then b.range.value.remote
        else if NonZero(IntText(Get(b, "remotePort"))) then IntText(Get(b, "remotePort")) else "",
        DomainsOf(Get(b, "customDomains"), ranged),
        Get(b, "secretKey"),
        Get(b, "transport.proxyProtocolVersion"),
        Get(b, "transport.useCompression") == "true",
        Get(b, "transport.useEncryption") == "true",
        ExtrasOf(b.order, b.raw, PROXY_KEYS)),
      [], map[], [], None)
  }

  // ---- Writing blocks ----

  /** A line written if `on`. */
  datatype Field = Field(on: bool, key: string, raw: string)

  function FieldLines(fs: seq<Field>): seq<string> {
    if fs == [] then []
    else (if fs[0].on then [AssignText(Assign(fs[0].key, fs[0].raw))] else []) + FieldLines(fs[1..])
  }

  function ExtraFields(extras: seq<Extra>): seq<Field> {
    if extras == [] then [] else [Field(true, extras[0].key, extras[0].raw)] + ExtraFields(extras[1..])
  }

  predicate IsPortRange(spec: string) {
    '-' in spec || ',' in spec
  }

  predicate HasRemotePort(kind: string) {
    kind == "tcp" || kind == "udp"
  }

  predicate HasDomains(kind: string) {
    kind == "http" || kind == "https"
  }

  predicate HasSecret(kind: string) {
    kind == "stcp" || kind == "xtcp"
  }

  predicate IsRanged(p: Tunnel) {
    IsPortRange(p.settings.localPort) || (HasRemotePort(p.kind) && IsPortRange(p.settings.remotePort))
  }

  predicate IsPair(p: Tunnel) {
    IsRanged(p) && HasRemotePort(p.kind)
  }

  function LoopPort(p: Tunnel): string {
    if IsPair(p) then PORT_FIRST else PORT_ALONE
  }

  function PrintedName(p: Tunnel): string {
    if IsRanged(p) then p.name + "-" + LoopPort(p) else p.name
  }

  function MainFields(p: Tunnel): seq<Field> {
    var s, ranged := p.settings, IsRanged(p);
    [ Field(true, "name", Str(PrintedName(p))),
      Field(true, "type", Str(p.kind)),
      Field(s.localIP != "", "localIP", Str(Unbracket(s.localIP))),
      Field(ranged || s.localPort != "", "localPort", if ranged then LoopPort(p) else s.localPort),
      Field(IsPair(p) || (HasRemotePort(p.kind) && s.remotePort != ""), "remotePort",
            if IsPair(p) then PORT_SECOND else s.remotePort),
      Field(HasDomains(p.kind) && s.domains != "", "customDomains", DomainsRaw(s.domains, ranged)),
      Field(HasSecret(p.kind) && s.secretKey != "", "secretKey", Str(s.secretKey)),
      Field(s.compression, "transport.useCompression", "true"),
      Field(s.encryption, "transport.useEncryption", "true"),
      Field(s.proxyProtocol != "", "transport.proxyProtocolVersion", Str(s.proxyProtocol)) ]
  }

  function RangeText(local: string, remote: Option<string>): string {
    match remote
    case Some(r) => PAIR_HEAD + local + "\" \"" + r + RANGE_TAIL
    case None => ONE_HEAD + local + RANGE_TAIL
  }

  /** The lines of a tunnel: inside a range template if it stands for several ports. */
  function GenerateProxy(p: Tunnel): seq<string> {
    var body := [PROXY_HEAD] + FieldLines(MainFields(p) + ExtraFields(p.settings.extras));
    if IsRanged(p) then
      [RangeText(p.settings.localPort, if IsPair(p) then Some(p.settings.remotePort) else None)] + body + [END_TEXT]
    else body
  }

  /** The text of a tunnel. */
  function ProxyText(p: Tunnel): string {
    JoinLines(GenerateProxy(p))
  }

  // ---- A written line is read ----

  /** The line of a key, whatever stands behind the `=`. */
  lemma AnyLineReads(key: string, v: string)
    requires BareKey(key)
    ensures ReadLine(key + " = " + v) == AssignLine(Assign(key, ValueText(" " + TrimRight(v))), Trim(v), TrimLeft(v))
         || (TrimRight(v) == "" && ReadLine(key + " = " + v) == AssignLine(Assign(key, ValueText("")), Trim(v), TrimLeft(v)))
  {
    hide KeyEnd, ValueText, Trim, LastPort, Unquoted, IsSpace, TrimLeft, TrimRight, RangeOf, BareKey;
    var line, t := key + " = " + v, TrimRight(v);
    BareFirst(key);
    BareIsTight(key);
    TrimTight(key);
    LineTrimmed(key, v);
    var line' := Trim(line);
    var rest := if t == "" then "" else " " + t;
    assert line' == key + " =" + rest;
    KeyEndFound(key, rest, 0);
    assert line'[0] == key[0];
    NotTemplate(line');
    CutAtKey(key, rest);
    LineParts(key, v);
    SpaceGone(v);
    SpaceGone(t);
    TrimOfRight(v);
  }

  lemma CutAtKey(key: string, rest: string)
    ensures var line := key + " =" + rest; line[..|key| + 1] == key + " " && line[|key| + 2..] == rest
  {
  }

  lemma SpaceGone(v: string)
    ensures TrimLeft(" " + v) == TrimLeft(v)
  {
    assert (" " + v)[1..] == v;
  }

  // Trimming the end first changes nothing.
  lemma TrimOfRight(v: string)
    ensures Trim(" " + TrimRight(v)) == Trim(v) && (TrimRight(v) == "" ==> Trim("") == Trim(v))
  {
    hide IsSpace;
    SpaceGone(TrimRight(v));
    LeftOfRight(v);
  }

  lemma {:induction false} LeftOfRight(v: string)
    ensures TrimRight(TrimLeft(TrimRight(v))) == TrimRight(TrimLeft(v))
    decreases |v|
  {
    hide IsSpace;
    if v != [] {
      if IsSpace(v[0]) {
        LeftOfRight(v[1..]);
        RightKeepsFirst(v);
      } else {
        RightEnd("", v);
        assert "" + v == v && "" + TrimRight(v) == TrimRight(v);
        RightTwice(v);
      }
    }
  }

  lemma RightKeepsFirst(v: string)
    requires v != [] && IsSpace(v[0])
    ensures TrimLeft(TrimRight(v)) == TrimLeft(TrimRight(v[1..]))
  {
    hide IsSpace;
    RightBehind(v[0], v[1..]);
    assert v == [v[0]] + v[1..];
  }

  lemma {:induction false} RightBehind(c: char, v: string)
    requires IsSpace(c)
    ensures TrimRight([c] + v) == if TrimRight(v) == "" then "" else [c] + TrimRight(v)
    decreases |v|
  {
    hide IsSpace;
    var s := [c] + v;
    if v == [] {
      assert s[..|s| - 1] == "";
    } else {
      assert s[|s| - 1] == v[|v| - 1];
      if IsSpace(v[|v| - 1]) {
        assert s[..|s| - 1] == [c] + v[..|v| - 1];
        RightBehind(c, v[..|v| - 1]);
      }
    }
  }

  /** The first line of a value written: the key, and what stands behind the `=`. */
  lemma AssignLineReads(key: string, v: string)
    requires BareKey(key) && v != [] && !IsSpace(v[0])
    ensures ReadLine(key + " = " + v) == AssignLine(Assign(key, ValueText(" " + TrimRight(v))), Trim(v), v)
  {
    hide ReadLine, TrimRight, ValueText, IsSpace;
    AnyLineReads(key, v);
    RightEnd("", v);
    assert "" + v == v && "" + TrimRight(v) == TrimRight(v);
    NoSpaceFirst(v);
  }

  lemma NoSpaceFirst(v: string)
    requires v != [] && !IsSpace(v[0])
    ensures TrimLeft(v) == v
  {
  }

  lemma BareFirst(key: string)
    requires BareKey(key)
    ensures key != [] && BareChar(key[0]) && !IsSpace(key[0])
  {
    BareNotSpace(key[0]);
  }

  // Spaces at the end of the value are those at the end of the line.
  lemma LineTrimmed(key: string, v: string)
    requires key != [] && !IsSpace(key[0])
    ensures TrimLeft(key + " = " + v) == key + " = " + v
    ensures Trim(key + " = " + v) == key + " =" + if TrimRight(v) == "" then "" else " " + TrimRight(v)
  {
    hide IsSpace, TrimRight, TrimLeft;
    NoSpaceFirst(key + " = " + v);
    NotSpace();
    EqualsApart(key, v);
    RightEnd(key + " ", "=" + (" " + v));
    SpaceIsSpace();
    RightBehind(' ', v);
    assert [' '] + v == " " + v && [' '] + TrimRight(v) == " " + TrimRight(v);
    EqualsKept(" " + v);
    EqualsBack(key, TrimRight(" " + v));
  }

  lemma EqualsApart(key: string, v: string)
    ensures key + " = " + v == (key + " ") + ("=" + (" " + v))
  {
  }

  lemma EqualsBack(key: string, t: string)
    ensures key + " " + ("=" + t) == key + " =" + t
  {
  }

  lemma {:induction false} EqualsKept(v: string)
    ensures TrimRight("=" + v) == "=" + TrimRight(v)
    decreases |v|
  {
    hide IsSpace;
    var s := "=" + v;
    if v == [] {
      NotSpace();
    } else {
      assert s[|s| - 1] == v[|v| - 1];
      if IsSpace(v[|v| - 1]) {
        assert s[..|s| - 1] == "=" + v[..|v| - 1];
        EqualsKept(v[..|v| - 1]);
      }
    }
  }

  lemma NotSpace()
    ensures !IsSpace('=')
  {
  }

  lemma {:induction false} RightEnd(pre: string, v: string)
    requires v != [] && !IsSpace(v[0])
    ensures TrimRight(pre + v) == pre + TrimRight(v) && TrimRight(v) != [] && TrimRight(v)[0] == v[0]
    decreases |v|
  {
    hide IsSpace;
    var s := pre + v;
    assert s[|s| - 1] == v[|v| - 1];
    if IsSpace(v[|v| - 1]) {
      assert s[..|s| - 1] == pre + v[..|v| - 1];
      RightEnd(pre, v[..|v| - 1]);
    }
  }

  lemma {:induction false} RightTwice(v: string)
    ensures TrimRight(TrimRight(v)) == TrimRight(v)
    decreases |v|
  {
    hide IsSpace;
    if v != [] && IsSpace(v[|v| - 1]) {
      RightTwice(v[..|v| - 1]);
    }
  }

  lemma NotTemplate(line: string)
    requires line != [] && BareChar(line[0])
    ensures RangeOf(line).None? && line != END_TEXT && line[0] != '#' && line[0] != '['
  {
    assert !StartsWith(line, 0, PAIR_HEAD) by { Differ(line, PAIR_HEAD); }
    assert !StartsWith(line, 0, ONE_HEAD) by { Differ(line, ONE_HEAD); }
  }

  lemma Differ(line: string, t: string)
    requires line != [] && t != [] && line[0] != t[0]
    ensures !StartsWith(line, 0, t)
  {
    if |t| <= |line| {
      assert line[0..|t|][0] == line[0];
    }
  }

  lemma QuoteFound(s: string, rest: string)
    requires '\"' !in s
    ensures FindQuote(s + "\"" + rest) == |s|
  {
    var t := s + "\"" + rest;
    var n := FindQuote(t);
    assert t[|s|] == '\"';
    assert forall k :: 0 <= k < |s| ==> t[k] == s[k] && s[k] in s;
  }

  lemma LastPortReads(s: string)
    requires '\"' !in s
    ensures LastPort(s + RANGE_TAIL) == Some(s)
  {
    assert s + RANGE_TAIL == s + "\"" + " }}";
    QuoteFound(s, " }}");
  }

  lemma RangeReads(local: string, remote: Option<string>)
    requires '\"' !in local && (remote.Some? ==> '\"' !in remote.value)
    ensures RangeOf(RangeText(local, remote)) == Some(Range(local, if remote.Some? then remote.value else ""))
  {
    hide LastPort, FindQuote;
    var line := RangeText(local, remote);
    match remote
    case Some(r) =>
      var s := local + "\"" + (" \"" + (r + RANGE_TAIL));
      assert line == PAIR_HEAD + s;
      HeadThere(PAIR_HEAD, s);
      QuoteFound(local, " \"" + (r + RANGE_TAIL));
      Middle3(local, r + RANGE_TAIL);
      LastPortReads(r);
    case None =>
      assert line == ONE_HEAD + (local + RANGE_TAIL);
      HeadThere(ONE_HEAD, local + RANGE_TAIL);
      assert !StartsWith(line, 0, PAIR_HEAD) by {
        if |PAIR_HEAD| <= |line| {
          assert line[0..|PAIR_HEAD|][36] == line[36] == ONE_HEAD[36];
        }
      }
      LastPortReads(local);
  }

  lemma HeadThere(head: string, s: string)
    ensures StartsWith(head + s, 0, head) && (head + s)[|head|..] == s
  {
  }

  lemma Middle3(local: string, rest: string)
    ensures var s := local + "\"" + (" \"" + rest);
            StartsWith(s, |local|, "\" \"") && s[..|local|] == local && s[|local| + 3..] == rest
  {
    var s := local + "\"" + (" \"" + rest);
    assert s == local + "\" \"" + rest;
  }
}
