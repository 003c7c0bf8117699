/** Reading an inline table from its text (one line): where it ends, its keys and its values. */
module InlineScan {
  import opened Wrappers
  import opened TomlStrings
  import opened TomlText
  import opened InlineTables

  // ---- Brackets ----

  function SkipComment(s: string, i: nat): (n: nat)
    requires i <= |s|
    ensures i <= n <= |s|
    decreases |s| - i
  {
    if i < |s| && s[i] != '\n' then SkipComment(s, i + 1) else i
  }

  /** Index behind the bracket that closes depth 0. */
  function ScanEnd(s: string, i: nat, depth: int, quote: Option<char>): (n: Option<nat>)
    ensures n.Some? ==> i < n.value <= |s|
    decreases |s| - i
  {
    if i >= |s| then None
    else if quote.Some? then
      if s[i] == '\\' && quote.value == '\"' then ScanEnd(s, i + 2, depth, quote)
      else ScanEnd(s, i + 1, depth, if s[i] == quote.value then None else quote)
    else if IsQuote(s[i]) then ScanEnd(s, i + 1, depth, Some(s[i]))
    else if s[i] == '#' then ScanEnd(s, SkipComment(s, i) + 1, depth, None)
    else if s[i] == '[' || s[i] == '{' then ScanEnd(s, i + 1, depth + 1, None)
    else if s[i] == ']' || s[i] == '}' then
      if depth == 1 then Some(i + 1) else ScanEnd(s, i + 1, depth - 1, None)
    else ScanEnd(s, i + 1, depth, None)
  }

  /** The loop that looks for the end of the array or table that starts at `start`. */
  method FindEnd(s: string, start: nat) returns (end: Option<nat>)
    ensures end == ScanEnd(s, start, 0, None)
  {
    var i, depth := start, 0;
    var quote: Option<char> := None;
    while i < |s|
      invariant ScanEnd(s, i, depth, quote) == ScanEnd(s, start, 0, None)
      decreases |s| - i
    {
      var c := s[i];
      if quote.Some? {
        if c == '\\' && quote.value == '\"' {
          i := i + 1;
        } else if c == quote.value {
          quote := None;
        }
      } else if IsQuote(c) {
        quote := Some(c);
      } else if c == '#' {
        i := SkipComment(s, i);
      } else if c == '[' || c == '{' {
        depth := depth + 1;
      } else if c == ']' || c == '}' {
        depth := depth - 1;
        if depth == 0 {
          return Some(i + 1);
        }
      }
      i := i + 1;
    }
    end := None;
  }

  // ---- Values ----

  function StringEnd(s: string, i: nat, close: nat, quote: char): (n: Option<nat>)
    requires close <= |s|
    ensures n.Some? ==> i < n.value <= close
    decreases |s| - i
  {
    if i >= close then None
    else if quote == '\"' && s[i] == '\\' then StringEnd(s, i + 2, close, quote)
    else if s[i] == quote then Some(i + 1)
    else if s[i] == '\n' then None
    else StringEnd(s, i + 1, close, quote)
  }

  function WordStop(s: string, i: nat, close: nat): (n: nat)
    requires i <= close <= |s|
    ensures i <= n <= close
    decreases close - i
  {
    if i < close && s[i] !in ",}#\n" then WordStop(s, i + 1, close) else i
  }

  function TrimBack(s: string, vs: nat, i: nat): (n: nat)
    requires vs <= i <= |s|
    ensures vs <= n <= i
    decreases i
  {
    if i > vs && IsSpace(s[i - 1]) then TrimBack(s, vs, i - 1) else i
  }

  /** End of the value that starts at `vs`, in a table closed at `close`. */
  function ValueEnd(s: string, vs: nat, close: nat): (n: Option<nat>)
    requires vs < close <= |s|
    ensures n.Some? ==> vs < n.value <= close
  {
    if StartsWith(s, vs, "\"\"\"") || StartsWith(s, vs, "'''") then
      match MultilineClose(s[vs..])
      case None => None
      case Some(e) => if vs + e > close then None else Some(vs + e)
    else if IsQuote(s[vs]) then StringEnd(s, vs + 1, close, s[vs])
    else if s[vs] == '{' || s[vs] == '[' then
      match ScanEnd(s, vs, 0, None)
      case None => None
      case Some(e) => if e > close then None else Some(e)
    else
      var e := TrimBack(s, vs, WordStop(s, vs, close));
      if e > vs then Some(e) else None
  }

  // ---- Keys ----

  predicate EndsKey(c: char) {
    c in "=,#\n{}[]"
  }

  function KeyStop(s: string, i: nat, close: nat, quote: Option<char>): (n: nat)
    requires i <= close + 1 && close <= |s|
    ensures i <= n <= close + 1
    decreases close + 1 - i
  {
    if i >= close then i
    else if quote.Some? then
      if s[i] == '\\' && quote.value == '\"' then KeyStop(s, i + 2, close, quote)
      else KeyStop(s, i + 1, close, if s[i] == quote.value then None else quote)
    else if IsQuote(s[i]) then KeyStop(s, i + 1, close, Some(s[i]))
    else if EndsKey(s[i]) then i
    else KeyStop(s, i + 1, close, None)
  }

  /** Segments of a key, quotes kept. */
  function Segments(s: string, i: nat, cur: string, quote: Option<char>): Path
    decreases |s| - i
  {
    if i >= |s| then [cur]
    else if quote.Some? then
      if s[i] == '\\' && quote.value == '\"' then
        Segments(s, i + 2, cur + [s[i]] + (if i + 1 < |s| then [s[i + 1]] else []), quote)
      else Segments(s, i + 1, cur + [s[i]], if s[i] == quote.value then None else quote)
    else if IsQuote(s[i]) then Segments(s, i + 1, cur + [s[i]], Some(s[i]))
    else if s[i] == '.' then [cur] + Segments(s, i + 1, [], None)
    else Segments(s, i + 1, cur + [s[i]], None)
  }

  /** A segment of a plain name: letters, digits, `-` and `_`. */
  predicate NameChar(c: char) {
    BareChar(c) && c != '.'
  }

  predicate Name(k: string) {
    k != [] && forall i :: 0 <= i < |k| ==> NameChar(k[i])
  }

  function PlainSegment(x: string): string {
    var t := Trim(x);
    if |t| >= 3 && IsQuote(t[0]) && t[|t| - 1] == t[0] && Name(t[1..|t| - 1]) then t[1..|t| - 1] else t
  }

  function PlainSegments(segs: Path): Path {
    if segs == [] then [] else [PlainSegment(segs[0])] + PlainSegments(segs[1..])
  }

  /** Path of a key: a quoted segment that is a plain name loses its quotes. */
  function KeyPath(s: string): Path {
    PlainSegments(Segments(s, 0, [], None))
  }

  // ---- Items ----

  /** Key, its start, start and end of its value. */
  datatype Found = Found(key: Path, ks: nat, vs: nat, ve: nat)

  function AddFirst(x: Found, rest: Option<seq<Found>>): Option<seq<Found>> {
    match rest
    case None => None
    case Some(r) => Some([x] + r)
  }

  function ItemsFrom(s: string, i: nat, close: nat): Option<seq<Found>>
    requires close < |s|
    decreases |s| - i
  {
    if i >= close then Some([])
    else if IsSpace(s[i]) || s[i] == ',' then ItemsFrom(s, i + 1, close)
    else if s[i] == '#' then ItemsFrom(s, if SkipComment(s, i) > i then SkipComment(s, i) else i + 1, close)
    else
      var eq := KeyStop(s, i, close, None);
      if eq >= |s| || s[eq] != '=' then None
      else
        var key := KeyPath(s[i..eq]);
        var vs := SkipBlanks(s, eq + 1);
        if vs >= close || key == [""] then None
        else
          match ValueEnd(s, vs, close)
          case None => None
          case Some(ve) => AddFirst(Found(key, i, vs, ve), ItemsFrom(s, ve, close))
  }

  datatype TableAt = TableAt(items: seq<Found>, close: nat)

  /** Items of the inline table that opens at `open`, and where it closes. */
  function InlineItems(s: string, open: nat): (t: Option<TableAt>)
    ensures t.Some? ==> open < |s| && t.value.close < |s|
  {
    match ScanEnd(s, open, 0, None)
    case None => None
    case Some(end) =>
      match ItemsFrom(s, open + 1, end - 1)
      case None => None
      case Some(items) => Some(TableAt(items, end - 1))
  }

  lemma AddFirstApart(items: seq<Found>, x: Found, rest: Option<seq<Found>>)
    ensures Joined(items, AddFirst(x, rest)) == Joined(items + [x], rest)
  {
    if rest.Some? {
      assert items + ([x] + rest.value) == items + [x] + rest.value;
    }
  }

  lemma JoinedAlone(rest: Option<seq<Found>>)
    ensures Joined([], rest) == rest
  {
    if rest.Some? {
      assert [] + rest.value == rest.value;
    }
  }

  function Joined(items: seq<Found>, rest: Option<seq<Found>>): Option<seq<Found>> {
    match rest
    case None => None
    case Some(r) => Some(items + r)
  }

  /** The loop that lists the items of an inline table. */
  method ReadItems(s: string, open: nat) returns (t: Option<TableAt>)
    ensures t == InlineItems(s, open)
  {
    hide ItemsFrom, ScanEnd, KeyPath, KeyStop, SkipBlanks, ValueEnd, IsSpace, SkipComment;
    var end := FindEnd(s, open);
    if end.None? {
      return None;
    }
    var close := end.value - 1;
    var items: seq<Found> := [];
    var i := open + 1;
    JoinedAlone(ItemsFrom(s, i, close));
    while i < close
      invariant Joined(items, ItemsFrom(s, i, close)) == Joined([], ItemsFrom(s, open + 1, close))
      decreases |s| - i
    {
      ItemsUnfold(s, i, close);
      if IsSpace(s[i]) || s[i] == ',' {
        i := i + 1;
        continue;
      }
      if s[i] == '#' {
        i := if SkipComment(s, i) > i then SkipComment(s, i) else i + 1;
        continue;
      }
      var eq := KeyStop(s, i, close, None);
      if eq >= |s| || s[eq] != '=' {
        return None;
      }
      var key, vs := KeyPath(s[i..eq]), SkipBlanks(s, eq + 1);
      if vs >= close || key == [""] {
        return None;
      }
      var ve := ValueEnd(s, vs, close);
      if ve.None? {
        return None;
      }
      AddFirstApart(items, Found(key, i, vs, ve.value), ItemsFrom(s, ve.value, close));
      items := items + [Found(key, i, vs, ve.value)];
      i := ve.value;
    }
    ItemsUnfold(s, i, close);
    assert items + [] == items;
    t := Some(TableAt(items, close));
  }

  lemma ItemsUnfold(s: string, i: nat, close: nat)
    requires close < |s|
    ensures ItemsFrom(s, i, close) ==
      if i >= close then Some([])
      else if IsSpace(s[i]) || s[i] == ',' then ItemsFrom(s, i + 1, close)
      else if s[i] == '#' then ItemsFrom(s, if SkipComment(s, i) > i then SkipComment(s, i) else i + 1, close)
      else
        var eq := KeyStop(s, i, close, None);
        if eq >= |s| || s[eq] != '=' then None
        else
          var key, vs := KeyPath(s[i..eq]), SkipBlanks(s, eq + 1);
          if vs >= close || key == [""] then None
          else
            match ValueEnd(s, vs, close)
            case None => None
            case Some(ve) => AddFirst(Found(key, i, vs, ve), ItemsFrom(s, ve, close))
  {
    hide KeyPath, KeyStop, SkipBlanks, ValueEnd, IsSpace, SkipComment;
  }
}
