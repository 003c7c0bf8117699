/** Scanning the connection part of a file: its settings and its headers. */
module MergeScan {
  import opened Wrappers
  import opened InlineTables
  import opened TomlLines
  import opened MergePlan

  datatype Setting = Setting(at: nat, key: Path, table: Path)
  datatype Head = Head(at: nat, name: Path, isArray: bool)

  /** settings: entries outside tunnels and arrays, under their full keys; headers: headers outside
      tunnels; heads: every header; firstBlock: first tunnel (|lines| without any). */
  datatype Scan = Scan(settings: seq<Setting>, headers: seq<Head>, heads: seq<nat>, firstBlock: nat)

  ghost predicate SettingOf(lines: seq<Line>, e: Setting) {
    IsSetting(lines, e.at) && e.key == FullKey(lines, e.at) && e.table == PlaceAt(lines, e.at).path
  }

  ghost predicate HeadOf(lines: seq<Line>, h: Head) {
    && h.at < |lines| && lines[h.at] == Header(h.name, h.isArray)
    && !PlaceAt(lines, h.at + 1).Block?
  }

  // ---- Sub-tables apart from their tunnel ----

  /** The scan's own idea of being in a tunnel: no other header since its head. */
  predicate InBlock(lines: seq<Line>, i: nat)
    requires i <= |lines|
  {
    i > 0 &&
    if !lines[i - 1].Header? then InBlock(lines, i - 1)
    else TunnelHead(lines[i - 1]) || (TunnelPart(lines[i - 1].name) && InBlock(lines, i - 1))
  }

  /** A sub-table of a tunnel that stands behind another table: the scan takes it for a table. */
  predicate Detached(lines: seq<Line>, i: nat) {
    && i < |lines| && lines[i].Header? && TunnelPart(lines[i].name)
    && Seen(PlaceAt(lines, i)) && !InBlock(lines, i)
  }

  ghost predicate HasDetached(lines: seq<Line>) {
    exists i: nat :: Detached(lines, i)
  }

  /** What the scan lists beside settings and headers: entries and headers of such sub-tables. */
  ghost predicate StraySetting(lines: seq<Line>, e: Setting) {
    e.at < |lines| && lines[e.at].Entry? && PlaceAt(lines, e.at).Block? && TunnelPart(e.table) && e.table <= e.key && HasDetached(lines)
  }

  ghost predicate StrayHead(lines: seq<Line>, h: Head) {
    && h.at < |lines| && lines[h.at] == Header(h.name, h.isArray) && PlaceAt(lines, h.at + 1).Block?
    && TunnelPart(h.name) && HasDetached(lines)
  }

  ghost predicate FirstTunnel(lines: seq<Line>, limit: nat) {
    && limit <= |lines|
    && (limit < |lines| ==> TunnelHead(lines[limit]))
    && forall j :: 0 <= j < limit ==> !TunnelHead(lines[j])
  }

  /** The scan lists what the file holds, and nothing else but sub-tables apart from their tunnel. */
  ghost predicate Scanned(lines: seq<Line>, sc: Scan) {
    && (forall e :: SettingOf(lines, e) ==> e in sc.settings)
    && (forall e :: e in sc.settings ==> SettingOf(lines, e) || StraySetting(lines, e))
    && (forall h :: HeadOf(lines, h) ==> h in sc.headers)
    && (forall h :: h in sc.headers ==> HeadOf(lines, h) || StrayHead(lines, h))
    && (forall x: nat :: x in sc.heads <==> x < |lines| && lines[x].Header?)
    && FirstTunnel(lines, sc.firstBlock)
  }

  /** State of the scan in front of line `i`. */
  ghost predicate Tracks(lines: seq<Line>, i: nat, table: Option<Path>, inBlock: bool)
    requires i <= |lines|
  {
    && inBlock == InBlock(lines, i)
    && match PlaceAt(lines, i)
       case Block => inBlock || (HasDetached(lines) && (table.Some? ==> TunnelPart(table.value)))
       case Array(_) => !inBlock && table.None?
       case Table(path, _) => !inBlock && table == Some(path)
  }

  lemma TrackHeader(lines: seq<Line>, i: nat, table: Option<Path>, inBlock: bool)
    requires i < |lines| && Tracks(lines, i, table, inBlock) && lines[i].Header?
    ensures var name, isArray := lines[i].name, lines[i].isArray;
            if isArray && TunnelName(name) then Tracks(lines, i + 1, table, true) && PlaceAt(lines, i + 1).Block?
            else if inBlock && TunnelPart(name) then Tracks(lines, i + 1, table, inBlock) && PlaceAt(lines, i + 1).Block?
            else Tracks(lines, i + 1, if isArray then None else Some(name), false)
                 && (HeadOf(lines, Head(i, name, isArray)) || StrayHead(lines, Head(i, name, isArray)))
  {
    var name := lines[i].name;
    if TunnelPart(name) && Seen(PlaceAt(lines, i)) && !InBlock(lines, i) {
      assert Detached(lines, i);
    }
    if InBlock(lines, i) {
      BlockIsSeen(lines, i);
    }
  }

  lemma {:induction false} BlockIsSeen(lines: seq<Line>, i: nat)
    requires i <= |lines| && InBlock(lines, i)
    ensures PlaceAt(lines, i).Block?
  {
    if !lines[i - 1].Header? || !TunnelHead(lines[i - 1]) {
      BlockIsSeen(lines, i - 1);
    }
  }

  lemma TrackOther(lines: seq<Line>, i: nat, table: Option<Path>, inBlock: bool)
    requires i < |lines| && Tracks(lines, i, table, inBlock) && !lines[i].Header?
    ensures Tracks(lines, i + 1, table, inBlock)
    ensures lines[i].Entry? ==>
              if !inBlock && table.Some? then
                var e := Setting(i, table.value + lines[i].key, table.value); SettingOf(lines, e) || StraySetting(lines, e)
              else !IsSetting(lines, i)
  {
  }

  // A setting is read as one, and listed under one key and table.
  lemma SettingKnown(lines: seq<Line>, i: nat, table: Option<Path>, inBlock: bool, e: Setting)
    requires i < |lines| && Tracks(lines, i, table, inBlock) && SettingOf(lines, e) && e.at == i
    ensures !inBlock && table.Some? && e == Setting(i, table.value + lines[i].key, table.value)
  {
  }

  method ScanConnection(lines: seq<Line>) returns (sc: Scan)
    ensures Scanned(lines, sc)
  {
    hide Tracks, PlaceAt, InBlock, HasDetached, StraySetting, StrayHead, SettingOf, HeadOf;
    var settings: seq<Setting>, headers: seq<Head>, heads: seq<nat> := [], [], [];
    var firstBlock: int := -1;
    var table: Option<Path>, inBlock := Some([]), false;
    StartTracks(lines);
    for i := 0 to |lines|
      invariant Tracks(lines, i, table, inBlock)
      invariant Listed(lines, settings, headers, i)
      invariant forall x: nat :: x in heads <==> x < i && lines[x].Header?
      invariant firstBlock < i
      invariant firstBlock >= 0 ==> TunnelHead(lines[firstBlock])
      invariant forall j :: 0 <= j < (if firstBlock >= 0 then firstBlock else i) ==> !TunnelHead(lines[j])
    {
      ListedNext(lines, settings, headers, i, table, inBlock);
      match lines[i]
      case Header(name, isArray) =>
        TrackHeader(lines, i, table, inBlock);
        heads := heads + [i];
        if isArray && TunnelName(name) {
          inBlock := true;
          firstBlock := if firstBlock < 0 then i else firstBlock;
        } else if inBlock && TunnelPart(name) {
        } else {
          inBlock := false;
          table := if isArray then None else Some(name);
          headers := headers + [Head(i, name, isArray)];
        }
      case Entry(key, _, _) =>
        TrackOther(lines, i, table, inBlock);
        if !inBlock && table.Some? {
          settings := settings + [Setting(i, table.value + key, table.value)];
        }
      case _ =>
        TrackOther(lines, i, table, inBlock);
    }
    sc := Scan(settings, headers, heads, if firstBlock < 0 then |lines| else firstBlock);
    AllListed(lines, settings, headers);
  }

  lemma StartTracks(lines: seq<Line>)
    ensures Tracks(lines, 0, Some([]), false) && Listed(lines, [], [], 0)
  {
  }

  /** The lines before `i` are listed. */
  ghost predicate Listed(lines: seq<Line>, settings: seq<Setting>, headers: seq<Head>, i: nat) {
    && (forall e :: SettingOf(lines, e) && e.at < i ==> e in settings)
    && (forall e :: e in settings ==> SettingOf(lines, e) || StraySetting(lines, e))
    && (forall h :: HeadOf(lines, h) && h.at < i ==> h in headers)
    && (forall h :: h in headers ==> HeadOf(lines, h) || StrayHead(lines, h))
  }

  lemma AllListed(lines: seq<Line>, settings: seq<Setting>, headers: seq<Head>)
    requires Listed(lines, settings, headers, |lines|)
    ensures (forall e :: SettingOf(lines, e) ==> e in settings) && (forall h :: HeadOf(lines, h) ==> h in headers)
    ensures (forall e :: e in settings ==> SettingOf(lines, e) || StraySetting(lines, e))
    ensures (forall h :: h in headers ==> HeadOf(lines, h) || StrayHead(lines, h))
  {
    hide PlaceAt, HasDetached;
  }

  // Line `i` listed as the scan does.
  lemma ListedNext(lines: seq<Line>, settings: seq<Setting>, headers: seq<Head>, i: nat, table: Option<Path>, inBlock: bool)
    requires i < |lines| && Tracks(lines, i, table, inBlock) && Listed(lines, settings, headers, i)
    ensures match lines[i]
            case Header(name, isArray) =>
              if (isArray && TunnelName(name)) || (inBlock && TunnelPart(name)) then Listed(lines, settings, headers, i + 1)
              else Listed(lines, settings, headers + [Head(i, name, isArray)], i + 1)
            case Entry(key, _, _) =>
              if !inBlock && table.Some? then Listed(lines, settings + [Setting(i, table.value + key, table.value)], headers, i + 1)
              else Listed(lines, settings, headers, i + 1)
            case _ => Listed(lines, settings, headers, i + 1)
  {
    hide Tracks, PlaceAt, HasDetached, InBlock, StraySetting, StrayHead, SettingOf, HeadOf;
    if lines[i].Header? {
      TrackHeader(lines, i, table, inBlock);
    } else {
      TrackOther(lines, i, table, inBlock);
    }
    forall e | SettingOf(lines, e) && e.at == i
      ensures lines[i].Entry? && !inBlock && table.Some? && e == Setting(i, table.value + lines[i].key, table.value) {
      SettingKnown(lines, i, table, inBlock, e);
      SettingIsEntry(lines, e);
    }
    forall h | HeadOf(lines, h) && h.at == i
      ensures lines[i].Header? && !PlaceAt(lines, i + 1).Block? && h == Head(i, lines[i].name, lines[i].isArray) {
      HeadIsHeader(lines, h);
    }
  }

  lemma SettingIsEntry(lines: seq<Line>, e: Setting)
    requires SettingOf(lines, e)
    ensures e.at < |lines| && lines[e.at].Entry?
  {
  }

  lemma HeadIsHeader(lines: seq<Line>, h: Head)
    requires HeadOf(lines, h)
    ensures h.at < |lines| && lines[h.at] == Header(h.name, h.isArray) && !PlaceAt(lines, h.at + 1).Block?
  {
  }

  /** The key is no key of a tunnel, unless every sub-table stands in its tunnel. */
  ghost predicate Apt(lines: seq<Line>, k: Path) {
    TunnelPart(k) ==> !HasDetached(lines)
  }

  /** A setting listed that leads to such a key is a setting of the file. */
  lemma AptSetting(lines: seq<Line>, sc: Scan, e: Setting, k: Path)
    requires Scanned(lines, sc) && e in sc.settings && Apt(lines, k) && (e.key <= k || e.table <= k)
    ensures SettingOf(lines, e)
  {
    hide PlaceAt, HasDetached, FirstTunnel, HeadOf, StrayHead;
    if TunnelPart(e.table) && e.table <= e.key {
      PartOfKey(e.table, k) by { assert e.key <= k ==> e.table <= k; }
    }
  }

  lemma PartOfKey(table: Path, k: Path)
    requires TunnelPart(table) && table <= k
    ensures TunnelPart(k)
  {
    assert k[..1] == table[..1];
  }

  lemma AptHead(lines: seq<Line>, sc: Scan, h: Head, k: Path)
    requires Scanned(lines, sc) && h in sc.headers && Apt(lines, k) && h.name <= k
    ensures HeadOf(lines, h)
  {
    hide PlaceAt, HasDetached, FirstTunnel, SettingOf, StraySetting;
    if TunnelPart(h.name) {
      PartOfKey(h.name, k);
    }
  }
}
