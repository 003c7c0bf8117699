/** A key written with its value, over as many lines as the value has, is read back as it is written. */
module ValueReads {
  import opened Wrappers
  import opened TomlStrings
  import opened TextLines
  import opened TomlText
  import opened TomlValues
  import opened Tunnels
  import opened TunnelText

  lemma {:induction false} LineEndBehind(pre: string, t: string)
    requires NoBreak(pre)
    ensures LineEnd(pre + t) == |pre| + LineEnd(t)
  {
    if pre == [] {
      assert pre + t == t;
    } else {
      assert (pre + t)[0] == pre[0] && (pre + t)[1..] == pre[1..] + t;
      LineEndBehind(pre[1..], t);
    }
  }

  // Text in front of the first line.
  lemma LinesBehind(pre: string, t: string)
    requires NoBreak(pre)
    ensures Lines(pre + t) == [pre + Lines(t)[0]] + Lines(t)[1..]
  {
    hide LineEnd, Lines, AfterBreak;
    var s, n := pre + t, LineEnd(t);
    LineEndBehind(pre, t);
    LinesUnfold(t);
    LinesUnfold(s);
    if n == |t| {
      assert [t][1..] == [];
    } else {
      assert s[..|pre| + n] == pre + t[..n];
      AfterBehind(pre, t, n);
      assert ([t[..n]] + Lines(AfterBreak(t, n)))[1..] == Lines(AfterBreak(t, n));
    }
  }

  lemma AfterBehind(pre: string, t: string, n: nat)
    requires n < |t|
    ensures AfterBreak(pre + t, |pre| + n) == AfterBreak(t, n)
  {
    var s := pre + t;
    assert s[|pre| + n] == t[n] && (n + 1 < |t| ==> s[|pre| + n + 1] == t[n + 1] && s[|pre| + n + 2..] == t[n + 2..]);
    assert s[|pre| + n + 1..] == t[n + 1..];
  }

  lemma FeedFirst(st: Parsed, x: string, rest: seq<string>)
    ensures Feed(st, [x] + rest) == Feed(Step(st, x), rest)
  {
    hide Step;
    assert ([x] + rest)[1..] == rest;
  }

  lemma JoinFirst(x: string, rest: seq<string>)
    ensures JoinLines([x] + rest) == if rest == [] then x else x + "\n" + JoinLines(rest)
  {
    assert ([x] + rest)[1..] == rest;
  }

  // ---- Strings ----

  lemma {:induction false} StringFeeds(st: Parsed, key: string, delim: string, raw: string, lines: seq<string>)
    requires UpTo(delim, lines)
    ensures Feed(st.(mode := InString(key, delim, raw)), lines) == Store(st, key, raw + "\n" + JoinLines(lines))
    decreases |lines|
  {
    hide Contains, Store, Open;
    var x, rest := lines[0], lines[1..];
    assert lines == [x] + rest;
    var m := st.(mode := InString(key, delim, raw));
    FeedFirst(m, x, rest);
    JoinFirst(x, rest);
    StoreMode(st, m.mode, key, raw + "\n" + x);
    if rest != [] {
      StringFeeds(st, key, delim, raw + "\n" + x, rest);
      assert raw + "\n" + x + "\n" + JoinLines(rest) == raw + "\n" + (x + "\n" + JoinLines(rest));
    }
  }

  // ---- Arrays ----

  lemma ArrayStep(st: Parsed, key: string, text: string, x: string)
    requires OpenArray(text) && ArrayLine(x)
    ensures Step(Gather(st, key, text), x) == Gather(st, key, text + "\n" + x)
  {
    hide Store, Open, ValueText, OpenArray;
    StoreMode(st, InArray(key, text), key, text + "\n" + x);
  }

  lemma JoinOver(text: string, x: string, rest: seq<string>)
    ensures JoinLines([text] + ([x] + rest)) == JoinLines([text + "\n" + x] + rest)
  {
    hide JoinLines;
    JoinFirst(text, [x] + rest);
    JoinFirst(x, rest);
    JoinFirst(text + "\n" + x, rest);
    assert rest != [] ==> text + "\n" + x + "\n" + JoinLines(rest) == text + "\n" + (x + "\n" + JoinLines(rest));
  }

  lemma {:induction false} ArrayFeeds(st: Parsed, key: string, text: string, lines: seq<string>)
    requires Closes(text, lines)
    ensures Feed(Gather(st, key, text), lines) == Store(st, key, JoinLines([text] + lines))
    decreases |lines|
  {
    hide Step, Store, OpenArray, ArrayLine, JoinLines;
    if lines == [] {
      JoinFirst(text, []);
    } else {
      var x, rest := lines[0], lines[1..];
      assert lines == [x] + rest;
      ArrayStep(st, key, text, x);
      FeedFirst(Gather(st, key, text), x, rest);
      ArrayFeeds(st, key, text + "\n" + x, rest);
      JoinOver(text, x, rest);
    }
  }

  // ---- Any value ----

  // The first line of a value that is no multi-line string.
  lemma CompleteReads(v: string)
    requires Complete(v)
    ensures v != [] && !IsSpace(v[0]) && TrimRight(v) == v && Trim(v) == v && ValueText(" " + v) == v
  {
    hide CommentAt, IsSpace;
    TrimTight(v);
    assert (" " + v)[..|v| + 1] == " " + v;
  }

  lemma StartReads(st: Parsed, key: string, v: string)
    requires BareKey(key) && st.mode.Ready? && st.cur.Some? && v != [] && !IsSpace(v[0])
    ensures LeftOpen(Trim(v)) ==> Step(st, key + " = " + v) == st.(mode := InString(key, Delim(Trim(v)), v))
    ensures !LeftOpen(Trim(v)) && Complete(v) ==> Step(st, key + " = " + v) == Gather(st, key, v)
  {
    hide ReadLine, Gather, LeftOpen, Trim, TrimRight, ValueText, IsSpace, Complete, BareKey;
    AssignLineReads(key, v);
    if Complete(v) {
      CompleteReads(v);
    }
  }

  lemma KeyNoBreak(key: string)
    requires BareKey(key)
    ensures NoBreak(key + " = ")
  {
    forall k | 0 <= k < |key| ensures key[k] != '\n' && key[k] != '\r' {
      assert BareChar(key[k]);
    }
  }

  // A key without a value.
  lemma NothingReads(st: Parsed, key: string)
    requires BareKey(key) && st.mode.Ready? && st.cur.Some?
    ensures Feed(st, Lines(key + " = " + "")) == Store(st, key, "")
  {
    hide Lines, BareKey, Step, Store, ReadLine, ValueText, Trim, TrimLeft, TrimRight;
    KeyNoBreak(key);
    assert key + " = " + "" == key + " = ";
    OneLineIs(key + " = ");
    assert [key + " = "][1..] == [];
    AnyLineReads(key, "");
    NoValue();
    assert " " + "" == " ";
    StartsNothing(st, key);
  }

  lemma NoValue()
    ensures TrimRight("") == "" && Trim("") == "" && ValueText("") == "" && ValueText(" ") == "" && TrimLeft("") == "" && !LeftOpen("") && !OpenArray("")
  {
    assert " "[1..] == "";
  }

  lemma StartsNothing(st: Parsed, key: string)
    requires st.mode.Ready? && st.cur.Some? && ReadLine(key + " = ") == AssignLine(Assign(key, ""), "", "")
    ensures Step(st, key + " = ") == Store(st, key, "")
  {
    hide ReadLine;
    NoValue();
  }

  /** A whole value written in a block is stored as it is written. */
  lemma WholeReads(st: Parsed, key: string, raw: string)
    requires BareKey(key) && WholeValue(raw) && st.mode.Ready? && st.cur.Some?
    ensures Feed(st, Lines(key + " = " + raw)) == Store(st, key, raw)
  {
    hide Lines, Step, Gather, Store, LeftOpen, Trim, IsSpace, Complete, BareKey, Closes, UpTo;
    if raw == "" {
      NothingReads(st, key);
      return;
    }
    var ls := Lines(raw);
    var v, rest := ls[0], ls[1..];
    KeyNoBreak(key);
    LinesBehind(key + " = ", raw);
    LinesBack(raw);
    assert ls == [v] + rest;
    JoinFirst(v, rest);
    if LeftOpen(Trim(v)) {
      StartReads(st, key, v);
      FeedFirst(st, key + " = " + v, rest);
      UpToSome(Delim(Trim(v)), rest);
      StringFeeds(st, key, Delim(Trim(v)), v, rest);
    } else {
      CompleteReads(v);
      StartReads(st, key, v);
      FeedFirst(st, key + " = " + v, rest);
      ArrayFeeds(st, key, v, rest);
    }
  }

  lemma UpToSome(delim: string, lines: seq<string>)
    ensures UpTo(delim, lines) ==> lines != []
  {
  }
}
