/** The bytes of the terminal commands: what `snprintf` puts in the append buffer and how
    the terminal takes it apart again. */
module Escapes {
  import opened Terminal

  const ESC: char := 27 as char

  predicate Printable(c: char) {
    ' ' <= c <= '~'
  }

  predicate Digit(c: char) {
    '0' <= c <= '9'
  }

  predicate ParamChar(c: char) {
    Digit(c) || c == ';'
  }

  /** `%d` */
  function Decimal(n: nat): (s: string)
    ensures s != "" && forall c :: c in s ==> Digit(c)
  {
    var d := [('0' as int + n % 10) as char];
    if n < 10 then d else Decimal(n / 10) + d
  }

  function ParseDecimal(s: string): nat
    requires forall c :: c in s ==> Digit(c)
  {
    if s == "" then 0
    else
      var last := s[|s| - 1];
      assert last in s && Digit(last);
      ParseDecimal(s[..|s| - 1]) * 10 + (last as int - '0' as int)
  }

  lemma {:induction false} ParseOfDecimal(n: nat)
    ensures ParseDecimal(Decimal(n)) == n
  {
    var s := Decimal(n);
    if n >= 10 {
      ParseOfDecimal(n / 10);
      assert s[..|s| - 1] == Decimal(n / 10);
    } else {
      assert s[..0] == "";
    }
  }

  /** A command the editor can send: text is printable, colours are parameter strings. */
  predicate Sendable(cmd: Cmd) {
    (cmd.Put? ==> Printable(cmd.c)) && (cmd.Sgr? ==> forall c :: c in cmd.params ==> ParamChar(c))
  }

  function Csi(params: string, final: char): string {
    [ESC, '['] + params + [final]
  }

  function Encode(cmd: Cmd): string {
    match cmd
    case Put(c) => [c]
    case Cr => "\r"
    case Lf => "\n"
    case Up(n) => Csi(Decimal(n), 'A')
    case Down(n) => Csi(Decimal(n), 'B')
    case Right(n) => Csi(Decimal(n), 'C')
    case EraseRight => Csi("0", 'K')
    case Home => Csi("", 'H')
    case EraseAll => Csi("2", 'J')
    case Sgr(params) => Csi(params, 'm')
  }

  function EncodeAll(cmds: seq<Cmd>): string {
    if cmds == [] then "" else EncodeAll(cmds[..|cmds| - 1]) + Encode(cmds[|cmds| - 1])
  }

  /** The bytes themselves, as ECMA-48 has them. */
  lemma BytesAre(n: nat, c: char)
    ensures Encode(Put(c)) == [c] && Encode(Cr) == [13 as char] && Encode(Lf) == [10 as char]
    ensures Encode(Up(n)) == [27 as char, '['] + Decimal(n) + "A"
    ensures Encode(Down(n)) == [27 as char, '['] + Decimal(n) + "B"
    ensures Encode(Right(n)) == [27 as char, '['] + Decimal(n) + "C"
    ensures Encode(EraseRight) == [27 as char, '[', '0', 'K']
    ensures Encode(Home) + Encode(EraseAll) == [27 as char, '[', 'H', 27 as char, '[', '2', 'J']
    ensures Encode(Sgr("0")) == [27 as char, '[', '0', 'm'] && Encode(Sgr("")) == [27 as char, '[', 'm']
  {
  }

  lemma DigitIs(d: nat)
    requires d < 10
    ensures ('0' as int + d) as char == "0123456789"[d]
  {
  }

  /** Numbers are written in decimal, without leading zeros. */
  lemma {:induction false} DecimalIs(n: nat)
    ensures Decimal(n) == (if n < 10 then "" else Decimal(n / 10)) + ["0123456789"[n % 10]]
    ensures n > 0 ==> Decimal(n)[0] != '0'
  {
    DigitIs(n % 10);
    if n >= 10 {
      DecimalIs(n / 10);
    }
  }

  /** The end of a run of parameter characters. */
  function ParamEnd(s: string, i: nat): (k: nat)
    requires i <= |s|
    ensures i <= k <= |s| && (forall j :: i <= j < k ==> ParamChar(s[j])) && (k < |s| ==> !ParamChar(s[k]))
    decreases |s| - i
  {
    if i < |s| && ParamChar(s[i]) then ParamEnd(s, i + 1) else i
  }

  /** The command of a control sequence; the terminal ignores what it does not know. */
  function Control(params: string, final: char): seq<Cmd> {
    if final == 'm' then [Sgr(params)]
    else if final == 'H' then (if params == "" then [Home] else [])
    else if final == 'J' then (if params == "2" then [EraseAll] else [])
    else if final == 'K' then (if params == "" || params == "0" then [EraseRight] else [])
    else if exists c :: c in params && !Digit(c) then []
    else
      var n := ParseDecimal(params);
      if final == 'A' then [Up(n)] else if final == 'B' then [Down(n)] else if final == 'C' then [Right(n)] else []
  }

  function Decode(s: string): seq<Cmd>
    decreases |s|
  {
    if s == "" then []
    else if s[0] == ESC && |s| > 1 && s[1] == '[' then
      var k := ParamEnd(s, 2);
      if k == |s| then [] else Control(s[2..k], s[k]) + Decode(s[k + 1..])
    else
      (if s[0] == '\r' then [Cr] else if s[0] == '\n' then [Lf] else if Printable(s[0]) then [Put(s[0])] else [])
      + Decode(s[1..])
  }

  lemma DecodeCsi(params: string, final: char, rest: string)
    requires (forall c :: c in params ==> ParamChar(c)) && !ParamChar(final)
    ensures Decode(Csi(params, final) + rest) == Control(params, final) + Decode(rest)
  {
    var s := Csi(params, final) + rest;
    var k := 2 + |params|;
    assert s[k] == final && s[2..k] == params && s[k + 1..] == rest;
    assert forall j :: 2 <= j < k ==> s[j] == params[j - 2] && params[j - 2] in params;
    ParamEndIs(s, 2, k);
  }

  lemma {:induction false} ParamEndIs(s: string, i: nat, k: nat)
    requires i <= k < |s| && !ParamChar(s[k]) && forall j :: i <= j < k ==> ParamChar(s[j])
    ensures ParamEnd(s, i) == k
    decreases k - i
  {
    if i < k {
      ParamEndIs(s, i + 1, k);
    }
  }

  lemma DecodeSimple(cmd: Cmd, rest: string)
    requires Sendable(cmd) && (cmd.Put? || cmd.Cr? || cmd.Lf?)
    ensures Decode(Encode(cmd) + rest) == [cmd] + Decode(rest)
  {
    assert (Encode(cmd) + rest)[1..] == rest;
  }

  lemma DecodeMove(cmd: Cmd, n: nat, final: char, rest: string)
    requires (cmd == Up(n) && final == 'A') || (cmd == Down(n) && final == 'B') || (cmd == Right(n) && final == 'C')
    ensures Decode(Encode(cmd) + rest) == [cmd] + Decode(rest)
  {
    hide Decimal, ParseDecimal, Decode;
    ParseOfDecimal(n);
    DecodeCsi(Decimal(n), final, rest);
  }

  lemma DecodeOne(cmd: Cmd, rest: string)
    requires Sendable(cmd)
    ensures Decode(Encode(cmd) + rest) == [cmd] + Decode(rest)
  {
    match cmd
    case Put(_) => DecodeSimple(cmd, rest);
    case Cr => DecodeSimple(cmd, rest);
    case Lf => DecodeSimple(cmd, rest);
    case Up(n) => DecodeMove(cmd, n, 'A', rest);
    case Down(n) => DecodeMove(cmd, n, 'B', rest);
    case Right(n) => DecodeMove(cmd, n, 'C', rest);
    case EraseRight => DecodeCsi("0", 'K', rest);
    case Home => DecodeCsi("", 'H', rest);
    case EraseAll => DecodeCsi("2", 'J', rest);
    case Sgr(params) => DecodeCsi(params, 'm', rest);
  }

  lemma Append<T>(a: seq<T>, b: seq<T>, c: seq<T>)
    ensures a + (b + c) == a + b + c
  {
  }

  /** The terminal receives exactly the commands that were sent. */
  lemma {:induction false} DecodeEncoded(cmds: seq<Cmd>, rest: string)
    requires forall c :: c in cmds ==> Sendable(c)
    ensures Decode(EncodeAll(cmds) + rest) == cmds + Decode(rest)
    decreases |cmds|
  {
    hide Encode, Decode, EncodeAll, Sendable;
    if cmds == [] {
      NoBytes();
      assert "" + rest == rest && [] + Decode(rest) == Decode(rest);
    } else {
      var init, last := cmds[..|cmds| - 1], cmds[|cmds| - 1];
      assert init + [last] == cmds;
      EncodeSnoc(init, last);
      DecodeEncoded(init, Encode(last) + rest);
      DecodeOne(last, rest);
      Append(EncodeAll(init), Encode(last), rest);
      Append(init, [last], Decode(rest));
    }
  }

  lemma NoBytes()
    ensures EncodeAll([]) == ""
  {
  }

  lemma EncodeSnoc(cmds: seq<Cmd>, cmd: Cmd)
    ensures EncodeAll(cmds + [cmd]) == EncodeAll(cmds) + Encode(cmd)
  {
    assert (cmds + [cmd])[..|cmds|] == cmds;
  }

  lemma {:induction false} EncodePuts(cmds: seq<Cmd>, text: string)
    ensures EncodeAll(cmds + Puts(text)) == EncodeAll(cmds) + text
    decreases |text|
  {
    hide Puts, Encode, EncodeAll;
    if text == "" {
      NoPuts(cmds);
      assert EncodeAll(cmds) + text == EncodeAll(cmds);
    } else {
      var n := |text| - 1;
      EncodePut(text[n]);
      EncodePuts(cmds, text[..n]);
      PutsSnoc(cmds, text);
      EncodeSnoc(cmds + Puts(text[..n]), Put(text[n]));
      Append(EncodeAll(cmds), text[..n], [text[n]]);
      assert text[..n] + [text[n]] == text;
    }
  }

  lemma NoPuts(cmds: seq<Cmd>)
    ensures cmds + Puts("") == cmds
  {
  }

  lemma EncodePut(c: char)
    ensures Encode(Put(c)) == [c]
  {
  }
}
