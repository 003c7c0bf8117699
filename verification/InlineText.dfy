/** Writing or removing one key of an inline table, on the text of its line. */
module InlineText {
  import opened Wrappers
  import opened TomlStrings
  import opened TomlText
  import opened InlineTables
  import opened InlineScan

  // ---- Text operations ----

  function FindKey(items: seq<Found>, path: Path): (n: nat)
    ensures n <= |items| && (n < |items| ==> items[n].key == path)
  {
    if items == [] || items[0].key == path then 0 else 1 + FindKey(items[1..], path)
  }

  function FindHost(items: seq<Found>, path: Path): (n: nat)
    ensures n <= |items| && (n < |items| ==> Under(items[n].key, path))
  {
    if items == [] || Under(items[0].key, path) then 0 else 1 + FindHost(items[1..], path)
  }

  predicate AnyBelow(items: seq<Found>, path: Path) {
    items != [] && (Under(path, items[0].key) || AnyBelow(items[1..], path))
  }

  function FindComma(s: string, i: nat): (n: nat)
    requires i <= |s|
    ensures i <= n <= |s| && (n < |s| ==> s[n] == ',')
    decreases |s| - i
  {
    if i >= |s| || s[i] == ',' then i else FindComma(s, i + 1)
  }

  /** A text without the comma it starts with, blanks in front of it included. */
  function DropComma(s: string): string {
    if SkipBlanks(s, 0) < |s| && s[SkipBlanks(s, 0)] == ',' then s[SkipBlanks(s, 0) + 1..] else s
  }

  predicate Ranged(s: string, it: Found) {
    it.ks <= it.vs <= it.ve <= |s|
  }

  predicate AllRanged(s: string, items: seq<Found>) {
    forall i :: 0 <= i < |items| ==> Ranged(s, items[i])
  }

  /** Removes item `k` of a one-line table, with the comma that goes with it. */
  function InlineDrop(s: string, items: seq<Found>, k: nat): string
    requires k < |items| && AllRanged(s, items)
  {
    var it := items[k];
    if k + 1 < |items| then
      s[..it.ks] + s[items[k + 1].ks..]
    else if k > 0 then
      var prev := items[k - 1];
      var sep := FindComma(s, prev.ve);
      if sep >= |s| || sep > it.ks then s[..prev.ve] + s[it.ve..] else s[..sep] + s[it.ve..]
    else s[..it.ks] + DropComma(s[it.ve..])
  }

  /** Adds the text `line` as the last item of a one-line table. */
  function InlineAdd(s: string, open: nat, items: seq<Found>, close: nat, line: string): string
    requires open + 1 <= close <= |s| && AllRanged(s, items)
  {
    if items == [] then s[..open + 1] + " " + line + " " + s[close..]
    else
      s[..items[|items| - 1].ve] + ", " + line + s[items[|items| - 1].ve..]
  }

  predicate InlineEmpty(s: string, open: nat) {
    match InlineItems(s, open)
    case None => false
    case Some(t) => t.items == [] && open + 1 <= t.close && Trim(s[open + 1..t.close]) == []
  }

  function Dotted(p: Path): string {
    if p == [] then [] else if |p| == 1 then p[0] else p[0] + "." + Dotted(p[1..])
  }

  predicate InRange(s: string, open: nat, t: TableAt) {
    open + 1 <= t.close <= |s| && AllRanged(s, t.items) && forall i :: 0 <= i < |t.items| ==> open < t.items[i].vs
  }

  lemma {:induction false} ItemsInRange(s: string, i: nat, close: nat)
    requires close < |s|
    ensures match ItemsFrom(s, i, close)
            case None => true
            case Some(items) => AllRanged(s, items) && forall j :: 0 <= j < |items| ==> i < items[j].vs
    decreases |s| - i
  {
    hide StartsWith, IsSpace, KeyStop, KeyPath, SkipBlanks, ValueEnd, SkipComment;
    if i < close {
      if IsSpace(s[i]) || s[i] == ',' {
        ItemsInRange(s, i + 1, close);
      } else if s[i] == '#' {
        ItemsInRange(s, if SkipComment(s, i) > i then SkipComment(s, i) else i + 1, close);
      } else {
        var eq := KeyStop(s, i, close, None);
        if eq < |s| && s[eq] == '=' {
          var vs := SkipBlanks(s, eq + 1);
          if vs < close && ValueEnd(s, vs, close).Some? {
            ItemsInRange(s, ValueEnd(s, vs, close).value, close);
          }
        }
      }
    }
  }

  lemma {:induction false} EndsLater(s: string, i: nat, depth: int, quote: Option<char>)
    requires depth <= 0
    ensures ScanEnd(s, i, depth, quote).Some? ==> ScanEnd(s, i, depth, quote).value >= i + 2
    decreases |s| - i
  {
    if i < |s| && quote.None? && (s[i] == ']' || s[i] == '}') {
      EndsLater(s, i + 1, depth - 1, None);
    }
    if i < |s| && quote.None? && s[i] == '#' {
      EndsLater(s, SkipComment(s, i) + 1, depth, None);
    }
    if i < |s| && quote.None? && !IsQuote(s[i]) && s[i] !in "#[{]}" {
      EndsLater(s, i + 1, depth, None);
    }
    if i < |s| && quote.None? && IsQuote(s[i]) {
      EndsLater(s, i + 1, depth, Some(s[i]));
    }
    if i < |s| && quote.Some? {
      EndsLater(s, if s[i] == '\\' && quote.value == '\"' then i + 2 else i + 1, depth,
                if s[i] == quote.value then None else quote);
    }
  }

  lemma TableInRange(s: string, open: nat)
    ensures InlineItems(s, open).Some? ==> InRange(s, open, InlineItems(s, open).value)
  {
    hide ItemsFrom, ScanEnd;
    if InlineItems(s, open).Some? {
      EndsLater(s, open, 0, None);
      ItemsInRange(s, open + 1, InlineItems(s, open).value.close);
    }
  }

  /** A nested table was changed: if that emptied it, its key leaves. */
  function AfterNested(s: string, sub: string, open: nat, vs: nat, p: nat): Option<string> {
    if sub == s || !InlineEmpty(sub, vs) then Some(sub)
    else
      match InlineItems(sub, open)
      case None => None
      case Some(u) =>
        TableInRange(sub, open);
        if p < |u.items| then Some(InlineDrop(sub, u.items, p)) else None
  }

  /** Writes (`raw`) or removes (None) the key `path` in the inline table that opens at `open`;
      a nested table emptied by it leaves with its key. None: the key cannot be stored there. */
  function InlineSet(s: string, open: nat, path: Path, raw: Option<string>): Option<string>
    decreases |s| - open
  {
    match InlineItems(s, open)
    case None => None
    case Some(t) =>
      TableInRange(s, open);
      var k, p := FindKey(t.items, path), FindHost(t.items, path);
      if k < |t.items| then
        match raw
        case None => Some(InlineDrop(s, t.items, k))
        case Some(r) =>
          if Unquote(s[t.items[k].vs..t.items[k].ve]) == Unquote(r) then Some(s)
          else Some(s[..t.items[k].vs] + r + s[t.items[k].ve..])
      else if p < |t.items| then
        var it := t.items[p];
        if it.vs >= |s| || s[it.vs] != '{' then None
        else
          match InlineSet(s, it.vs, path[|it.key|..], raw)
          case None => None
          case Some(sub) => AfterNested(s, sub, open, it.vs, p)
      else if AnyBelow(t.items, path) then None
      else
        match raw
        case None => Some(s)
        case Some(r) => Some(InlineAdd(s, open, t.items, t.close, Dotted(path) + " = " + r))
  }
}
