/** TOML strings as the configuration editor writes and reads them. A template action
    `{{ ... }}` inside a string is written as it is: frp runs it before it reads the TOML. */
module TomlStrings {
  import opened Wrappers

  predicate IsControl(c: char) {
    c < ' ' || c == '\U{7F}'
  }

  // ---- Writing ----

  function HexDigit(n: nat): char
    requires n < 16
  {
    if n < 10 then (n as char + '0') else ((n - 10) as char + 'a')
  }

  /** Escape of one character outside the actions. */
  function EscapeChar(c: char): string {
    match c
    case '\\' => "\\\\"
    case '\"' => "\\\""
    case '\U{8}' => "\\b"
    case '\t' => "\\t"
    case '\n' => "\\n"
    case '\U{C}' => "\\f"
    case '\r' => "\\r"
    case _ =>
      if IsControl(c) then "\\u00" + [HexDigit(c as nat / 16), HexDigit(c as nat % 16)] else [c]
  }

  /** Where the closing braces of an action end, 0 if a control character or the end comes first. */
  function CloseFrom(s: string, i: nat): (n: nat)
    requires i <= |s|
    ensures n == 0 || i + 2 <= n <= |s|
    ensures n > 0 ==> forall k :: i <= k < n ==> !IsControl(s[k])
    ensures n > 0 ==> s[n - 2] == '}' && s[n - 1] == '}'
    decreases |s| - i
  {
    if i + 1 < |s| && s[i] == '}' && s[i + 1] == '}' then i + 2
    else if i < |s| && !IsControl(s[i]) then CloseFrom(s, i + 1)
    else 0
  }

  /** Length of the template action at the start, 0 if there is none. */
  function ActionLen(s: string): (n: nat)
    ensures n == 0 || 4 <= n <= |s|
    ensures n > 0 ==> s[0] == '{'
    ensures n > 0 ==> forall k :: 0 <= k < n ==> !IsControl(s[k])
    ensures n > 0 ==> s[n - 2] == '}' && s[n - 1] == '}'
  {
    if |s| >= 2 && s[0] == '{' && s[1] == '{' then CloseFrom(s, 2) else 0
  }

  function StrBody(s: string): string {
    if s == [] then []
    else if ActionLen(s) > 0 then s[..ActionLen(s)] + StrBody(s[ActionLen(s)..])
    else EscapeChar(s[0]) + StrBody(s[1..])
  }

  /** One-line TOML string. */
  function Str(s: string): string {
    "\"" + StrBody(s) + "\""
  }

  // ---- Reading ----

  predicate IsHex(c: char) {
    '0' <= c <= '9' || 'a' <= c <= 'f' || 'A' <= c <= 'F'
  }

  function HexValue(s: string): nat {
    if s == [] then 0
    else
      var c := s[|s| - 1];
      16 * HexValue(s[..|s| - 1]) +
      if '0' <= c <= '9' then c as nat - '0' as nat
      else if 'a' <= c <= 'f' then c as nat - 'a' as nat + 10
      else if 'A' <= c <= 'F' then c as nat - 'A' as nat + 10
      else 0
  }

  predicate IsScalar(n: nat) {
    n < 0xD800 || 0xE000 <= n < 0x110000
  }

  predicate IsBlank(c: char) {
    c == ' ' || c == '\t'
  }

  predicate IsSpace(c: char) {
    c in " \t\n\r\U{B}\U{C}\U{A0}\U{1680}\U{2028}\U{2029}\U{202F}\U{205F}\U{3000}\U{FEFF}" || '\U{2000}' <= c <= '\U{200A}'
  }

  function SkipBlanks(s: string, i: nat): (n: nat)
    requires i <= |s|
    ensures i <= n <= |s|
    decreases |s| - i
  {
    if i < |s| && IsBlank(s[i]) then SkipBlanks(s, i + 1) else i
  }

  function SkipSpaces(s: string, i: nat): (n: nat)
    requires i <= |s|
    ensures i <= n <= |s|
    decreases |s| - i
  {
    if i < |s| && IsSpace(s[i]) then SkipSpaces(s, i + 1) else i
  }

  /** Length of the escape at the start of `s`, 0 if the backslash stands for itself. */
  function EscapeLen(s: string): (n: nat)
    ensures n == 0 || 2 <= n <= |s|
  {
    if |s| < 2 || s[0] != '\\' then 0
    else if s[1] in "btnfr\"\\" then 2
    else if s[1] == 'u' && |s| >= 6 && (forall k :: 2 <= k < 6 ==> IsHex(s[k])) && IsScalar(HexValue(s[2..6])) then 6
    else if s[1] == 'U' && |s| >= 10 && (forall k :: 2 <= k < 10 ==> IsHex(s[k])) && IsScalar(HexValue(s[2..10])) then 10
    else
      var n := SkipBlanks(s, 1);
      if n < |s| && s[n] == '\n' then SkipSpaces(s, n + 1) else 0
  }

  /** What the escape at the start stands for. */
  function EscapeValue(s: string): string
    requires EscapeLen(s) > 0
  {
    match s[1]
    case 'b' => "\U{8}"
    case 't' => "\t"
    case 'n' => "\n"
    case 'f' => "\U{C}"
    case 'r' => "\r"
    case '\"' => "\""
    case '\\' => "\\"
    case 'u' => if EscapeLen(s) == 6 then [HexValue(s[2..6]) as char] else []
    case 'U' => if EscapeLen(s) == 10 then [HexValue(s[2..10]) as char] else []
    case _ => []
  }

  function Unescape(s: string): string
    decreases |s|
  {
    if s == [] then []
    else if EscapeLen(s) > 0 then EscapeValue(s) + Unescape(s[EscapeLen(s)..])
    else [s[0]] + Unescape(s[1..])
  }

  predicate StartsWith(s: string, i: nat, t: string) {
    i + |t| <= |s| && s[i..i + |t|] == t
  }

  /** End of the content of a multi-line string (`"""` or `'''`), whose text starts at `i`; the
      closing delimiter may be preceded by one or two quotes of the content. */
  function MultilineEnd(body: string, d: string, i: nat): Option<nat>
    requires |d| == 3
    decreases |body| - i
  {
    if i + 3 > |body| then None
    else if d == "\"\"\"" && body[i] == '\\' then MultilineEnd(body, d, i + 2)
    else if !StartsWith(body, i, d) then MultilineEnd(body, d, i + 1)
    else if i + 3 < |body| && body[i + 3] == d[0] then
      if i + 4 < |body| && body[i + 4] == d[0] then Some(i + 2) else Some(i + 1)
    else Some(i)
  }

  function MultilineValue(raw: string): Option<string> {
    if !StartsWith(raw, 0, "\"\"\"") && !StartsWith(raw, 0, "'''") then None
    else
      var d, body := raw[..3], raw[3..];
      match MultilineEnd(body, d, 0)
      case None => None
      case Some(end) =>
        var text := if end <= |body| then body[..end] else body;
        var text' := if text != [] && text[0] == '\n' then text[1..] else text;
        Some(if d == "\"\"\"" then Unescape(text') else text')
  }

  /** Value of a raw TOML value: the content of a string, any other text as it is. */
  function Unquote(raw: string): string {
    if MultilineValue(raw).Some? then MultilineValue(raw).value
    else if |raw| >= 2 && raw[0] == '\"' && raw[|raw| - 1] == '\"' then Unescape(raw[1..|raw| - 1])
    else if |raw| >= 2 && raw[0] == '\'' && raw[|raw| - 1] == '\'' then raw[1..|raw| - 1]
    else raw
  }

  // ---- Round trip ----

  /** Is there, in one of the actions of the string, something that reads as an escape? */
  predicate ActionsHoldNoEscape(s: string) {
    s == [] ||
    if ActionLen(s) > 0 then NoEscape(s[..ActionLen(s)]) && ActionsHoldNoEscape(s[ActionLen(s)..])
    else ActionsHoldNoEscape(s[1..])
  }

  predicate NoEscape(a: string) {
    a == [] || (EscapeLen(a) == 0 && NoEscape(a[1..]))
  }

  lemma UnescapeStep(s: string, n: nat, v: string, rest: string)
    requires s != [] && EscapeLen(s) == n && s[if n > 0 then n else 1..] == rest
    requires v == if n > 0 then EscapeValue(s) else [s[0]]
    ensures Unescape(s) == v + Unescape(rest)
  {
    hide EscapeLen, EscapeValue;
  }

  lemma EscapeCharReads(c: char, rest: string)
    ensures Unescape(EscapeChar(c) + rest) == [c] + Unescape(rest)
  {
    hide Unescape;
    var e := EscapeChar(c);
    var s := e + rest;
    if |e| == 1 {
      UnescapeStep(s, 0, [c], rest);
    } else if |e| == 2 {
      UnescapeStep(s, 2, [c], rest);
    } else {
      HexPair(c);
      assert s[2..6] == e[2..6] && s[6..] == rest;
      assert forall k :: 2 <= k < 6 ==> s[k] == e[k];
      UnescapeStep(s, 6, [c], rest);
    }
  }

  lemma HexPair(c: char)
    requires |EscapeChar(c)| == 6
    ensures var e := EscapeChar(c);
            && e[0] == '\\' && e[1] == 'u'
            && (forall k :: 2 <= k < 6 ==> IsHex(e[k]))
            && HexValue(e[2..6]) == c as nat
  {
    var e := EscapeChar(c);
    var h := e[2..6];
    var a, b := HexDigit(c as nat / 16), HexDigit(c as nat % 16);
    assert h == ['0', '0', a, b];
    assert h[..3] == ['0', '0', a] && h[..3][..2] == ['0', '0'] && h[..3][..2][..1] == ['0'];
    assert HexValue(['0']) == 0;
    assert HexValue(['0', '0']) == 0;
    assert HexValue(h[..3]) == c as nat / 16;
  }

  // Hexadecimal digits do not reach the closing braces.
  lemma HexInside(a: string, rest: string, n: nat)
    requires |a| >= 2 && a[|a| - 1] == '}' && a[|a| - 2] == '}' && a[1] != '}' && n >= 2
    ensures |a + rest| >= n && (forall k :: 2 <= k < n ==> IsHex((a + rest)[k]))
       <==> |a| >= n + 2 && (forall k :: 2 <= k < n ==> IsHex(a[k]))
    ensures |a| >= n + 2 ==> (a + rest)[2..n] == a[2..n]
  {
    var s := a + rest;
    assert forall k :: 0 <= k < |a| ==> s[k] == a[k];
    assert !IsHex(s[|a| - 2]) && !IsHex(s[|a| - 1]);
  }

  // An escape inside an action does not reach past its closing braces.
  lemma ActionEscape(a: string, rest: string)
    requires |a| >= 2 && a[|a| - 1] == '}' && a[|a| - 2] == '}'
    requires forall k :: 0 <= k < |a| ==> !IsControl(a[k])
    ensures EscapeLen(a + rest) == EscapeLen(a) <= |a| - 2
    ensures EscapeLen(a) > 0 ==> EscapeValue(a + rest) == EscapeValue(a) && |EscapeValue(a)| <= 1
  {
    var s := a + rest;
    assert forall k :: 0 <= k < |a| ==> s[k] == a[k];
    BlanksStop(a, rest, 1);
    BlanksStop(a, [], 1);
    assert a + [] == a;
    if a[1] != '}' {
      HexInside(a, rest, 6);
      HexInside(a, rest, 10);
      HexInside(a, [], 6);
      HexInside(a, [], 10);
    }
  }

  lemma BlanksStop(a: string, rest: string, i: nat)
    requires 0 < i < |a| && a[|a| - 1] == '}'
    ensures SkipBlanks(a, i) == SkipBlanks(a + rest, i) < |a|
    decreases |a| - i
  {
    assert (a + rest)[i] == a[i];
    if IsBlank(a[i]) {
      BlanksStop(a, rest, i + 1);
    }
  }

  lemma {:induction false} ActionReads(a: string, rest: string)
    requires |a| >= 2 && a[|a| - 1] == '}' && a[|a| - 2] == '}'
    requires forall k :: 0 <= k < |a| ==> !IsControl(a[k])
    ensures Unescape(a + rest) == Unescape(a) + Unescape(rest)
    decreases |a|
  {
    hide Unescape, EscapeLen, EscapeValue;
    ActionEscape(a, rest);
    var n := EscapeLen(a);
    var v := if n > 0 then EscapeValue(a) else [a[0]];
    var m := if n > 0 then n else 1;
    assert (a + rest)[m..] == a[m..] + rest;
    UnescapeStep(a, n, v, a[m..]);
    UnescapeStep(a + rest, n, v, a[m..] + rest);
    if |a| == 2 {
      assert a[1..] == "}";
      BraceReads(rest);
      BraceReads([]);
      UnescapeNothing();
      assert "}" + [] == "}";
    } else {
      ActionReads(a[m..], rest);
    }
  }

  lemma BraceReads(rest: string)
    ensures Unescape("}" + rest) == "}" + Unescape(rest)
  {
    assert ("}" + rest)[1..] == rest;
  }

  lemma UnescapeNothing()
    ensures Unescape([]) == []
  {
  }

  /** What the written body reads back as. */
  function Decoded(s: string): string {
    if s == [] then []
    else if ActionLen(s) > 0 then Unescape(s[..ActionLen(s)]) + Decoded(s[ActionLen(s)..])
    else [s[0]] + Decoded(s[1..])
  }

  lemma {:induction false} BodyReads(s: string)
    ensures Unescape(StrBody(s)) == Decoded(s)
    decreases |s|
  {
    hide Unescape, EscapeChar, ActionLen;
    if s == [] {
      UnescapeNothing();
    } else if ActionLen(s) > 0 {
      var n := ActionLen(s);
      BodyReads(s[n..]);
      ActionReads(s[..n], StrBody(s[n..]));
    } else {
      BodyReads(s[1..]);
      EscapeCharReads(s[0], StrBody(s[1..]));
    }
  }

  /** Reading escapes shortens a text, unless it holds none. */
  lemma {:induction false} UnescapeShortens(a: string)
    ensures |Unescape(a)| <= |a|
    ensures NoEscape(a) ==> Unescape(a) == a
    ensures |Unescape(a)| == |a| ==> NoEscape(a)
    decreases |a|
  {
    hide EscapeLen, EscapeValue;
    if a != [] {
      var n := EscapeLen(a);
      ValueShort(a);
      UnescapeShortens(a[if n > 0 then n else 1..]);
    }
  }

  lemma ValueShort(a: string)
    ensures EscapeLen(a) > 0 ==> |EscapeValue(a)| < EscapeLen(a)
  {
  }

  lemma {:induction false} DecodedIsSame(s: string)
    ensures |Decoded(s)| <= |s|
    ensures ActionsHoldNoEscape(s) ==> Decoded(s) == s
    ensures |Decoded(s)| == |s| ==> ActionsHoldNoEscape(s)
    decreases |s|
  {
    hide ActionLen, Unescape, NoEscape;
    if s != [] {
      var n := ActionLen(s);
      if n > 0 {
        UnescapeShortens(s[..n]);
        DecodedIsSame(s[n..]);
        assert s == s[..n] + s[n..];
      } else {
        DecodedIsSame(s[1..]);
      }
    }
  }

  lemma BodyStart(s: string)
    ensures StrBody(s) != [] ==> StrBody(s)[0] != '\"'
    ensures s != [] ==> StrBody(s) != []
  {
    if s != [] {
      assert EscapeChar(s[0]) != [] && EscapeChar(s[0])[0] != '\"';
    }
  }

  lemma UnquoteStr(s: string)
    ensures Unquote(Str(s)) == Decoded(s)
  {
    hide Unescape, StrBody, Decoded, MultilineEnd;
    BodyStart(s);
    BodyReads(s);
    var raw := Str(s);
    assert raw[1..|raw| - 1] == StrBody(s);
    assert !StartsWith(raw, 0, "\"\"\"") by {
      assert |raw| >= 3 ==> raw[1] != '\"' && raw[0..3][1] == raw[1];
    }
    assert !StartsWith(raw, 0, "'''") by {
      assert |raw| >= 3 ==> raw[0..3][0] == raw[0];
    }
  }

  /** A string written and read again is the same, exactly when none of its template actions
      holds something that reads as an escape. */
  lemma StringRoundTrip(s: string)
    ensures Unquote(Str(s)) == s <==> ActionsHoldNoEscape(s)
  {
    UnquoteStr(s);
    DecodedIsSame(s);
  }

  lemma {:induction false} NoBackslashNoEscape(a: string)
    requires '\\' !in a
    ensures NoEscape(a)
    decreases |a|
  {
    if a != [] {
      assert a[0] in a;
      NoBackslashNoEscape(a[1..]);
    }
  }

  predicate ActionsWithoutBackslash(s: string) {
    s == [] ||
    if ActionLen(s) > 0 then '\\' !in s[..ActionLen(s)] && ActionsWithoutBackslash(s[ActionLen(s)..])
    else ActionsWithoutBackslash(s[1..])
  }

  /** In particular, actions without a backslash are always safe. */
  lemma {:induction false} PlainActionsHoldNoEscape(s: string)
    requires ActionsWithoutBackslash(s)
    ensures ActionsHoldNoEscape(s)
    decreases |s|
  {
    hide ActionLen;
    if s != [] {
      if ActionLen(s) > 0 {
        NoBackslashNoEscape(s[..ActionLen(s)]);
        PlainActionsHoldNoEscape(s[ActionLen(s)..]);
      } else {
        PlainActionsHoldNoEscape(s[1..]);
      }
    }
  }

  // ---- Other ways to write a value ----

  /** A value that starts with no quote is its own text. */
  lemma PlainReads(raw: string)
    requires raw != [] ==> raw[0] != '\"' && raw[0] != '\''
    ensures Unquote(raw) == raw
  {
    hide MultilineEnd, Unescape;
    if |raw| >= 3 {
      assert raw[0..3][0] == raw[0];
    }
  }

  /** Between single quotes nothing is an escape. */
  lemma LiteralReads(s: string)
    requires '\'' !in s
    ensures Unquote("'" + s + "'") == s
  {
    hide MultilineEnd, Unescape;
    var raw := "'" + s + "'";
    assert raw[1..|raw| - 1] == s;
    if |raw| >= 3 {
      assert s[0] in s && raw[1] == s[0];
      assert raw[0..3][0] == '\'' && raw[0..3][1] == raw[1];
    }
  }

  lemma {:induction false} MultilineEndsAt(body: string, d: string, i: nat, n: nat)
    requires d == "\"\"\"" || d == "'''"
    requires i <= n && |body| == n + 3 && body[n..] == d
    requires forall k :: i <= k < n ==> body[k] != d[0] && (d[0] == '\"' ==> body[k] != '\\')
    ensures MultilineEnd(body, d, i) == Some(n)
    decreases n - i
  {
    assert body[n] == body[n..][0];
    if i < n {
      assert body[i..i + 3][0] == body[i];
      MultilineEndsAt(body, d, i + 1, n);
    } else {
      assert body[i..i + 3] == body[n..];
    }
  }

  lemma {:induction false} NoEscapeReads(s: string)
    requires '\\' !in s
    ensures Unescape(s) == s
  {
    if s != [] {
      assert s[0] in s;
      NoEscapeReads(s[1..]);
    }
  }

  lemma MultilineParts(d: string, inner: string)
    requires |d| == 3
    ensures var raw, body := d + inner + d, inner + d;
            && raw[..3] == d && raw[0..3] == d && raw[3..] == body && body[|inner|..] == d && body[..|inner|] == inner
            && forall k :: 0 <= k < |inner| ==> body[k] == inner[k]
  {
  }

  // What a multi-line string holds.
  lemma MultilineIs(d: string, inner: string)
    requires d == "\"\"\"" || d == "'''"
    requires forall k :: 0 <= k < |inner| ==> inner[k] != d[0] && (d[0] == '\"' ==> inner[k] != '\\')
    ensures var text := if inner != [] && inner[0] == '\n' then inner[1..] else inner;
            Unquote(d + inner + d) == if d[0] == '\"' then Unescape(text) else text
  {
    hide MultilineEnd, Unescape;
    MultilineParts(d, inner);
    MultilineEndsAt(inner + d, d, 0, |inner|);
  }

  /** Between three quotes a text reads as it is, without the line feed that may come first. */
  lemma MultilineReads(d: string, t: string, feed: bool)
    requires d == "\"\"\"" || d == "'''"
    requires d[0] !in t && (d[0] == '\"' ==> '\\' !in t) && (!feed && t != [] ==> t[0] != '\n')
    ensures Unquote(d + (if feed then "\n" + t else t) + d) == t
  {
    hide Unquote, Unescape;
    var inner := if feed then "\n" + t else t;
    forall k | 0 <= k < |inner| ensures inner[k] != d[0] && (d[0] == '\"' ==> inner[k] != '\\') {
      assert inner[k] in t || inner[k] == '\n';
    }
    MultilineIs(d, inner);
    assert feed ==> inner[1..] == t;
    if d[0] == '\"' {
      NoEscapeReads(t);
    }
  }

  /** The short escapes, each for its character. */
  lemma ShortEscapes(rest: string)
    ensures Unescape("\\b" + rest) == "\U{8}" + Unescape(rest) && Unescape("\\t" + rest) == "\t" + Unescape(rest)
    ensures Unescape("\\n" + rest) == "\n" + Unescape(rest) && Unescape("\\f" + rest) == "\U{C}" + Unescape(rest)
    ensures Unescape("\\r" + rest) == "\r" + Unescape(rest) && Unescape("\\\"" + rest) == "\"" + Unescape(rest)
    ensures Unescape("\\\\" + rest) == "\\" + Unescape(rest)
  {
    hide Unescape, EscapeValue, EscapeLen;
    ShortEscape("\\b", "\U{8}", rest);
    ShortEscape("\\t", "\t", rest);
    ShortEscape("\\n", "\n", rest);
    ShortEscape("\\f", "\U{C}", rest);
    ShortEscape("\\r", "\r", rest);
    ShortEscape("\\\"", "\"", rest);
    ShortEscape("\\\\", "\\", rest);
  }

  lemma ShortEscape(e: string, v: string, rest: string)
    requires || (e == "\\b" && v == "\U{8}") || (e == "\\t" && v == "\t") || (e == "\\n" && v == "\n") || (e == "\\f" && v == "\U{C}")
             || (e == "\\r" && v == "\r") || (e == "\\\"" && v == "\"") || (e == "\\\\" && v == "\\")
    ensures Unescape(e + rest) == v + Unescape(rest)
  {
    hide Unescape;
    var s := e + rest;
    assert s[0] == e[0] && s[1] == e[1] && s[2..] == rest;
    ShortLength(s);
    UnescapeStep(s, 2, v, rest);
  }

  lemma ShortLength(s: string)
    requires |s| >= 2 && s[0] == '\\' && s[1] in "btnfr\"\\"
    ensures EscapeLen(s) == 2
  {
  }

  lemma NumberParts(e: string, hex: string, rest: string)
    requires |e| == 2
    ensures var s := e + hex + rest;
            && |s| >= 2 + |hex| && s[0] == e[0] && s[1] == e[1] && s[2..2 + |hex|] == hex && s[2 + |hex|..] == rest
            && forall k :: 2 <= k < 2 + |hex| ==> s[k] == hex[k - 2]
  {
  }

  /** Four digits behind `u`, or eight behind `U`, are the character of that number. */
  lemma NumberEscapes(hex: string, rest: string)
    requires (|hex| == 4 || |hex| == 8) && (forall k :: 0 <= k < |hex| ==> IsHex(hex[k])) && IsScalar(HexValue(hex))
    ensures Unescape((if |hex| == 4 then "\\u" else "\\U") + hex + rest) == [HexValue(hex) as char] + Unescape(rest)
  {
    hide HexValue, Unescape, IsHex, IsScalar;
    var e := if |hex| == 4 then "\\u" else "\\U";
    NumberParts(e, hex, rest);
    NumberEscape(e + hex + rest, |hex|);
  }

  lemma NumberEscape(s: string, n: nat)
    requires |s| >= 2 + n && s[0] == '\\' && ((n == 4 && s[1] == 'u') || (n == 8 && s[1] == 'U'))
    requires (forall k :: 2 <= k < 2 + n ==> IsHex(s[k])) && IsScalar(HexValue(s[2..2 + n]))
    ensures Unescape(s) == [HexValue(s[2..2 + n]) as char] + Unescape(s[2 + n..])
  {
    hide Unescape;
    NumberLength(s, n);
    UnescapeStep(s, 2 + n, [HexValue(s[2..2 + n]) as char], s[2 + n..]);
  }

  lemma NumberLength(s: string, n: nat)
    requires |s| >= 2 + n && s[0] == '\\' && ((n == 4 && s[1] == 'u') || (n == 8 && s[1] == 'U'))
    requires (forall k :: 2 <= k < 2 + n ==> IsHex(s[k])) && IsScalar(HexValue(s[2..2 + n]))
    ensures EscapeLen(s) == 2 + n && EscapeValue(s) == [HexValue(s[2..2 + n]) as char]
  {
    hide HexValue, IsHex, SkipBlanks, SkipSpaces;
  }

  lemma {:induction false} BlanksSkipped(s: string, i: nat, e: nat)
    requires i <= e < |s| && (forall k :: i <= k < e ==> IsBlank(s[k])) && !IsBlank(s[e])
    ensures SkipBlanks(s, i) == e
    decreases e - i
  {
    if i < e {
      BlanksSkipped(s, i + 1, e);
    }
  }

  lemma {:induction false} SpacesSkipped(s: string, i: nat, e: nat)
    requires i <= e <= |s| && (forall k :: i <= k < e ==> IsSpace(s[k])) && (e < |s| ==> !IsSpace(s[e]))
    ensures SkipSpaces(s, i) == e
    decreases e - i
  {
    hide IsSpace;
    if i < e {
      SpacesSkipped(s, i + 1, e);
    }
  }

  lemma LineEndParts(blanks: string, spaces: string, rest: string)
    ensures var s, n, e := "\\" + blanks + "\n" + spaces + rest, 1 + |blanks|, 2 + |blanks| + |spaces|;
            && |s| == e + |rest| && s[0] == '\\' && s[n] == '\n' && s[e..] == rest && (rest != [] ==> s[e] == rest[0])
            && (forall k :: 1 <= k < n ==> s[k] == blanks[k - 1])
            && forall k :: n + 1 <= k < e ==> s[k] == spaces[k - n - 1]
  {
  }

  /** A backslash at the end of a line takes the line end and the spaces that follow with it. */
  lemma LineEndEscapes(blanks: string, spaces: string, rest: string)
    requires (forall k :: 0 <= k < |blanks| ==> IsBlank(blanks[k])) && (forall k :: 0 <= k < |spaces| ==> IsSpace(spaces[k]))
    requires rest != [] ==> !IsSpace(rest[0])
    ensures Unescape("\\" + blanks + "\n" + spaces + rest) == Unescape(rest)
  {
    hide IsSpace, Unescape, SkipBlanks, SkipSpaces;
    var s, n, e := "\\" + blanks + "\n" + spaces + rest, 1 + |blanks|, 2 + |blanks| + |spaces|;
    LineEndParts(blanks, spaces, rest);
    BlanksSkipped(s, 1, n);
    SpacesSkipped(s, n + 1, e);
    LineEscape(s, n, e);
    assert [] + Unescape(rest) == Unescape(rest);
  }

  lemma LineEscape(s: string, n: nat, e: nat)
    requires 1 <= n < e <= |s| && s[0] == '\\' && s[n] == '\n' && (forall k :: 1 <= k < n ==> IsBlank(s[k]))
    requires SkipBlanks(s, 1) == n && SkipSpaces(s, n + 1) == e
    ensures Unescape(s) == [] + Unescape(s[e..])
  {
    assert s[1] == '\n' || IsBlank(s[1]);
    assert EscapeLen(s) == e;
  }
}
