/** Names and domains of the tunnels of a port range: the port stands as `{port}` in the page and as
    a template action (`{{ $v }}`) in the file. */
module DomainText {
  import opened TomlStrings
  import opened TomlText

  const PORT_TOKEN := "{port}"

  // ---- The port of the loop ----

  /** Length of the loop port at the start: `{{ $v }}`, or `{{ $v.First }}` for the given field; 0
      if there is none. */
  function LoopLen(s: string, field: string): (n: nat)
    ensures n == 0 || 6 <= n <= |s|
  {
    if !StartsWith(s, 0, "{{") then 0
    else
      var a := SkipSpaces(s, 2);
      if !StartsWith(s, a, "$v") then 0
      else
        var c := SkipSpaces(s, FieldEnd(s, a + 2, field));
        if StartsWith(s, c, "}}") then c + 2 else 0
  }

  function FieldEnd(s: string, i: nat, field: string): (n: nat)
    requires i <= |s|
    ensures i <= n <= |s|
  {
    if StartsWith(s, i, field) then i + |field| else i
  }

  // The only opening braces are the first two.
  lemma LoopBraces(s: string, field: string)
    requires LoopLen(s, field) > 0 && '{' !in field
    ensures s[0] == '{' && s[1] == '{' && forall k :: 2 <= k < LoopLen(s, field) ==> s[k] != '{'
  {
    hide SkipSpaces, IsSpace;
    assert s[0..2][0] == s[0] && s[0..2][1] == s[1];
    var a := SkipSpaces(s, 2);
    var b := FieldEnd(s, a + 2, field);
    var c := SkipSpaces(s, b);
    NoBrace(s, 2);
    NoBraceIn(s, a, "$v");
    assert b > a + 2 ==> StartsWith(s, a + 2, field);
    NoBraceIn(s, a + 2, if b > a + 2 then field else "") by { assert s[a + 2..a + 2] == ""; }
    NoBrace(s, b);
    NoBraceIn(s, c, "}}");
  }

  lemma NoBrace(s: string, i: nat)
    requires i <= |s|
    ensures forall k :: i <= k < SkipSpaces(s, i) ==> s[k] != '{'
    decreases |s| - i
  {
    if i < |s| && IsSpace(s[i]) {
      NoBrace(s, i + 1);
    }
  }

  lemma NoBraceIn(s: string, i: nat, t: string)
    requires StartsWith(s, i, t) && '{' !in t
    ensures forall k :: i <= k < i + |t| ==> s[k] != '{'
  {
    forall k | i <= k < i + |t| ensures s[k] != '{' {
      assert s[i..i + |t|][k - i] == s[k];
    }
  }

  /** Is the text, dash in front or not, just the loop port? */
  predicate JustLoop(t: string, field: string) {
    (t != [] && LoopLen(t, field) == |t|) || (|t| > 1 && t[0] == '-' && LoopLen(t[1..], field) == |t| - 1)
  }

  /** A name without the loop port at its end. */
  function StripLoop(s: string, field: string, i: nat): string
    decreases |s| - i
  {
    if i >= |s| then s else if JustLoop(s[i..], field) then s[..i] else StripLoop(s, field, i + 1)
  }

  /** The loop port as the generator writes it. */
  predicate LoopText(port: string, field: string) {
    '{' !in field && LoopLen(port, field) == |port| && |port| >= 6
  }

  lemma {:induction false} StripFinds(n: string, port: string, field: string, i: nat)
    requires LoopText(port, field) && i <= |n|
    ensures StripLoop(n + "-" + port, field, i) == n
    decreases |n| - i
  {
    hide LoopLen;
    var s := n + "-" + port;
    assert s == n + ("-" + port);
    if i == |n| {
      assert s[i..] == "-" + port && ("-" + port)[1..] == port;
      assert s[..i] == n;
    } else {
      NotJustLoop(n, port, field, i);
      StripFinds(n, port, field, i + 1);
    }
  }

  lemma NotJustLoop(n: string, port: string, field: string, i: nat)
    requires LoopText(port, field) && i < |n|
    ensures !JustLoop((n + "-" + port)[i..], field)
  {
    hide LoopLen;
    var s := n + "-" + port;
    var t := s[i..];
    LoopBraces(port, field);
    if LoopLen(t, field) > 0 {
      LoopBraces(t, field);
    }
    if LoopLen(t[1..], field) > 0 {
      LoopBraces(t[1..], field);
    }
    assert s == n + ("-" + port);
    assert t[|n| - i + 2] == '{';
    assert t[1..][|n| - i + 1] == '{';
  }

  /** A name written for a range and read again is the same. */
  lemma StripRestores(n: string, port: string, field: string)
    requires LoopText(port, field)
    ensures StripLoop(n + "-" + port, field, 0) == n
  {
    StripFinds(n, port, field, 0);
  }

  // ---- {port} in a domain ----

  /** Every `pat` of the text replaced by `rep`, from left to right. */
  function ReplaceAll(s: string, pat: string, rep: string): string
    requires pat != []
    decreases |s|
  {
    if s == [] then []
    else if StartsWith(s, 0, pat) then rep + ReplaceAll(s[|pat|..], pat, rep)
    else [s[0]] + ReplaceAll(s[1..], pat, rep)
  }

  /** Every loop port of the text replaced by `{port}`. */
  function LoopsToToken(s: string, field: string): string
    decreases |s|
  {
    if s == [] then []
    else if LoopLen(s, field) > 0 then PORT_TOKEN + LoopsToToken(s[LoopLen(s, field)..], field)
    else [s[0]] + LoopsToToken(s[1..], field)
  }

  /** Characters of a domain, `{port}` aside. */
  predicate DomainChar(c: char) {
    !IsSpace(c) && !IsControl(c) && !IsQuote(c) && c !in "\\,[]{}"
  }

  /** A domain: its characters, and `{port}` anywhere. */
  predicate Domain(d: string)
    decreases |d|
  {
    d == [] || (if StartsWith(d, 0, PORT_TOKEN) then Domain(d[|PORT_TOKEN|..]) else DomainChar(d[0]) && Domain(d[1..]))
  }

  /** A domain with the loop port in the place of `{port}`. */
  function Looped(d: string, port: string): string {
    ReplaceAll(d, PORT_TOKEN, port)
  }

  lemma {:induction false} DomainLooped(d: string, port: string, field: string, rest: string)
    requires Domain(d) && LoopText(port, field) && LoopAtStart(port, field)
    ensures LoopsToToken(Looped(d, port) + rest, field) == d + LoopsToToken(rest, field)
    decreases |d|
  {
    hide LoopLen, LoopAtStart, ReplaceAll, LoopsToToken, StartsWith;
    if d == [] {
      LoopedNothing(port);
      assert Looped(d, port) + rest == rest && d + LoopsToToken(rest, field) == LoopsToToken(rest, field);
    } else if StartsWith(d, 0, PORT_TOKEN) {
      TokenHead(d);
      var tail := d[|PORT_TOKEN|..];
      DomainLooped(tail, port, field, rest);
      LoopedToken(tail, port, rest);
      LoopThere(port, field, Looped(tail, port) + rest);
      Assoc(PORT_TOKEN, tail, LoopsToToken(rest, field));
    } else {
      var tail := d[1..];
      DomainLooped(tail, port, field, rest);
      LoopedChar(d, port, rest);
      CharThere(d[0], Looped(tail, port) + rest, field);
      Assoc([d[0]], tail, LoopsToToken(rest, field));
      assert d == [d[0]] + tail;
    }
  }

  lemma Assoc(a: string, b: string, c: string)
    ensures a + b + c == a + (b + c)
  {
  }

  lemma TokenHead(d: string)
    requires StartsWith(d, 0, PORT_TOKEN)
    ensures d == PORT_TOKEN + d[|PORT_TOKEN|..]
  {
  }

  lemma LoopedNothing(port: string)
    ensures Looped([], port) == []
  {
  }

  lemma LoopedToken(tail: string, port: string, rest: string)
    ensures Looped(PORT_TOKEN + tail, port) + rest == port + (Looped(tail, port) + rest)
  {
    var d := PORT_TOKEN + tail;
    assert StartsWith(d, 0, PORT_TOKEN) && d[|PORT_TOKEN|..] == tail;
  }

  lemma LoopedChar(d: string, port: string, rest: string)
    requires d != [] && !StartsWith(d, 0, PORT_TOKEN)
    ensures Looped(d, port) + rest == [d[0]] + (Looped(d[1..], port) + rest)
  {
  }

  // The loop port is recognised whatever follows it.
  ghost predicate LoopAtStart(port: string, field: string) {
    forall rest :: LoopLen(port + rest, field) == |port|
  }

  lemma LoopThere(port: string, field: string, rest: string)
    requires LoopAtStart(port, field) && port != []
    ensures LoopsToToken(port + rest, field) == PORT_TOKEN + LoopsToToken(rest, field)
  {
    hide LoopLen;
    assert LoopLen(port + rest, field) == |port|;
    assert (port + rest)[|port|..] == rest;
  }

  lemma CharThere(c: char, rest: string, field: string)
    requires c != '{'
    ensures LoopsToToken([c] + rest, field) == [c] + LoopsToToken(rest, field)
  {
    var s := [c] + rest;
    assert |s| >= 2 ==> s[0..2][0] == c;
    assert s[1..] == rest && LoopLen(s, field) == 0;
  }

  // ---- The two spellings of the loop port ----

  const FIRST := ".First"
  const SECOND := ".Second"
  const PORT_ALONE := "{{ $v }}"
  const PORT_FIRST := "{{ $v.First }}"
  const PORT_SECOND := "{{ $v.Second }}"

  lemma OneBlank(s: string, i: nat)
    requires i + 1 < |s| && s[i] == ' ' && (s[i + 1] == '$' || s[i + 1] == '}')
    ensures SkipSpaces(s, i) == i + 1
  {
  }

  lemma LoopShape(s: string, field: string, b: nat)
    requires |s| >= b + 3 && b >= 5 && s[0..2] == "{{" && s[2] == ' ' && s[3..5] == "$v"
    requires b == FieldEnd(s, 5, field) && s[b] == ' ' && s[b + 1..b + 3] == "}}"
    ensures LoopLen(s, field) == b + 3
  {
    hide SkipSpaces, IsSpace, FieldEnd;
    assert s[3] == s[3..5][0] && s[b + 1] == s[b + 1..b + 3][0];
    OneBlank(s, 2);
    OneBlank(s, b);
  }

  lemma AloneIsLoop(rest: string, field: string)
    requires field == FIRST || field == SECOND
    ensures LoopLen(PORT_ALONE + rest, field) == |PORT_ALONE|
  {
    hide LoopLen;
    var s := PORT_ALONE + rest;
    assert s[0..2] == "{{" && s[2] == ' ' && s[3..5] == "$v" && s[5] == ' ' && s[6..8] == "}}";
    assert !StartsWith(s, 5, field) by {
      if |s| >= 5 + |field| {
        assert s[5..5 + |field|][0] == ' ';
      }
    }
    LoopShape(s, field, 5);
  }

  lemma FieldIsLoop(rest: string, field: string)
    requires field == FIRST || field == SECOND
    ensures LoopLen("{{ $v" + field + " }}" + rest, field) == 8 + |field|
  {
    hide LoopLen, FIRST, SECOND;
    var s := "{{ $v" + field + " }}" + rest;
    var n := |field|;
    FieldParts(field, rest);
    LoopShape(s, field, 5 + n);
  }

  lemma FieldParts(field: string, rest: string)
    ensures var s, n := "{{ $v" + field + " }}" + rest, |field|;
            && |s| >= 8 + n && s[0..2] == "{{" && s[2] == ' ' && s[3..5] == "$v"
            && FieldEnd(s, 5, field) == 5 + n && s[5 + n] == ' ' && s[6 + n..8 + n] == "}}"
  {
    var s, n := "{{ $v" + field + " }}" + rest, |field|;
    assert s == "{{ $v" + (field + (" }}" + rest));
    assert s[5..5 + n] == field;
    assert s == ("{{ $v" + field) + (" }}" + rest);
  }

  /** Both spellings are read as the port of the loop. */
  lemma LoopTexts()
    ensures LoopText(PORT_ALONE, FIRST) && LoopAtStart(PORT_ALONE, FIRST)
    ensures LoopText(PORT_FIRST, FIRST) && LoopText(PORT_SECOND, SECOND)
  {
    hide LoopLen;
    forall rest ensures LoopLen(PORT_ALONE + rest, FIRST) == |PORT_ALONE| {
      AloneIsLoop(rest, FIRST);
    }
    assert PORT_ALONE + "" == PORT_ALONE;
    AloneIsLoop("", FIRST);
    FieldIsLoop("", FIRST);
    FieldIsLoop("", SECOND);
    assert "{{ $v" + FIRST + " }}" + "" == PORT_FIRST;
    assert "{{ $v" + SECOND + " }}" + "" == PORT_SECOND;
  }
}
