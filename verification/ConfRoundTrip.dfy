/** What conf_write writes, conf_read_simple reads back (confdata.c). */
module ConfRoundTrip {
  import opened Tristates
  import opened Exprs
  import opened SymbolGraph
  import opened SymbolValue
  import opened Evaluator
  import opened ConfText
  import opened ConfLine
  import opened ConfRead
  import opened ConfWrite
  import opened Sequences

  /** kconfig_print_symbol, without a wish to skip what is not set. */
  function PrintSymbol(name: string, typ: SymbolType, value: string): string {
    if (typ == BooleanType || typ == TristateType) && value != "" && value[0] == 'n' then
      "# " + PREFIX + name + " " + UNSET + "\n"
    else PREFIX + name + "=" + value + "\n"
  }

  /** conf_write_symbol, for symbols with a type. */
  function PrintSetting(name: string, s: Symbol, v: SymVal, modules: Tristate): string
    requires s.Config?
  {
    var value := StringValue(s, v, modules);
    PrintSymbol(name, s.typ, if s.typ == StringType then Escape(value) else value)
  }

  /** The lines as they stand in the file. */
  lemma LineFormat(name: string, s: Symbol, v: SymVal, modules: Tristate)
    requires s.Config?
    ensures var line := PrintSetting(name, s, v, modules);
      && (IsLogical(s) && v.tri == NO ==> line == "# CONFIG_" + name + " is not set\n")
      && (IsLogical(s) && v.tri == MOD && modules != NO ==> line == "CONFIG_" + name + "=" + "m" + "\n")
      && (IsLogical(s) && v.tri == YES ==> line == "CONFIG_" + name + "=" + "y" + "\n")
      && (s.typ == IntType || s.typ == HexType ==> line == "CONFIG_" + name + "=" + v.val + "\n")
      && (s.typ == StringType && '"' !in v.val && '\\' !in v.val ==>
            line == "CONFIG_" + name + "=" + ("\"" + v.val + "\"") + "\n")
  {
    if s.typ == StringType && '"' !in v.val && '\\' !in v.val { EscapePlain(v.val); }
    assert "# " + PREFIX == "# CONFIG_";
    assert " " + UNSET + "\n" == " is not set\n";
    assert "# " + PREFIX + name + " " + UNSET + "\n" == "# CONFIG_" + name + (" " + UNSET + "\n");
  }

  /** The heading that conf_write prints for a menu. */
  function PrintTitle(text: string): seq<string> { ["\n", "#\n", "# " + text + "\n", "#\n"] }

  function PrintItem(g: Graph, modules: Tristate, it: Item): seq<string> {
    match it
    case Title(text) => PrintTitle(text)
    case Setting(s, v) => if s in g && HasVisibility(s) then [PrintSetting(g[s].name, s, v, modules)] else []
  }

  function Concat(lines: seq<string>): string {
    if lines == [] then "" else lines[0] + Concat(lines[1..])
  }

  lemma {:induction false} ConcatConcat(a: seq<string>, b: seq<string>)
    ensures Concat(a + b) == Concat(a) + Concat(b)
  {
    if a == [] {
      assert a + b == b;
    } else {
      assert (a + b)[1..] == a[1..] + b;
      ConcatConcat(a[1..], b);
      Concat3(a[0], Concat(a[1..]), Concat(b));
    }
  }

  /** The whole file, below its opening comment. */
  function FileText(g: Graph, modules: Tristate, doc: seq<Item>): string {
    if doc == [] then ""
    else FileText(g, modules, doc[..|doc| - 1]) + Concat(PrintItem(g, modules, doc[|doc| - 1]))
  }

  ghost predicate IsWholeLine(line: string) {
    line != "" && line[|line| - 1] == '\n' && '\n' !in line[..|line| - 1]
  }

  /** Reading a text that begins with a whole line. */
  lemma ReadWholeLine(types: map<string, SymbolType>, user: Settings, line: string, more: string)
    requires IsWholeLine(line)
    ensures var l := ParseLine(line); ReadText(types, user, line + more) == ReadText(Retype(types, l), Take(types, user, l), more)
  {
    var text := line + more;
    assert text[..|line| - 1] == line[..|line| - 1];
    IndexOfIs(text, '\n', |line| - 1);
    assert text[..|line|] == line && text[|line|..] == more;
  }

  function TakeAll(types: map<string, SymbolType>, user: Settings, lines: seq<string>): Settings
    decreases |lines|
  {
    if lines == [] then user else TakeAll(types, Take(types, user, ParseLine(lines[0])), lines[1..])
  }

  ghost predicate AllWhole(lines: seq<string>) { lines == [] || (IsWholeLine(lines[0]) && AllWhole(lines[1..])) }

  /** Lines that change no type. */
  ghost predicate KeepTypes(types: map<string, SymbolType>, lines: seq<string>) {
    lines == [] || (Retype(types, ParseLine(lines[0])) == types && KeepTypes(types, lines[1..]))
  }

  lemma {:induction false} ReadLines(types: map<string, SymbolType>, user: Settings, lines: seq<string>, more: string)
    requires AllWhole(lines) && KeepTypes(types, lines)
    ensures ReadText(types, user, Concat(lines) + more) == ReadText(types, TakeAll(types, user, lines), more)
    decreases |lines|
  {
    if lines == [] {
      assert Concat(lines) + more == more;
    } else {
      var line, text := lines[0], Concat(lines[1..]) + more;
      ReadWholeLine(types, user, line, text);
      ReadLines(types, Take(types, user, ParseLine(line)), lines[1..], more);
      Concat3(line, Concat(lines[1..]), more);
      assert Concat(lines) + more == line + text;
    }
  }

  /** What the names of symbols are made of: neither the file's punctuation nor an end. */
  ghost predicate IsName(name: string) { NUL !in name && '=' !in name && ' ' !in name && '\n' !in name }

  /** The values whose lines stay whole: no newline in them; "m" only where it is a value. */
  ghost predicate IsPlain(s: Symbol, v: SymVal, modules: Tristate) {
    if IsLogical(s) then v.tri == MOD ==> IsTristate(s) && modules != NO
    else NUL !in v.val && '\n' !in v.val
  }

  /** A name, then `c`, then `more`. */
  lemma NameFirst(name: string, c: char, more: string)
    requires c !in name
    ensures var rest := name + [c] + more;
            IndexOf(rest, c) == |name| && rest[..|name|] == name && rest[|name| + 1..] == more
  {
    var rest := name + [c] + more;
    assert rest[..|name|] == name;
    IndexOfIs(rest, c, |name|);
  }

  lemma WholeLine(line: string)
    requires '\n' !in line
    ensures IsWholeLine(line + "\n")
  {
    Drop(line, "\n");
  }

  /** The end of a text that begins in four parts, followed by `more`. */
  lemma FourParts(a: string, b: string, c: string, d: string, s: string, more: string)
    requires a + b + c + d <= s
    ensures var t := s[|a + b + c + d|..] + more;
            s + more == a + (b + c + (d + t))
  {
    assert s == a + b + c + d + s[|a + b + c + d|..];
  }

  /** A comment that begins like the unsetting of a name is read as one. */
  lemma UnsettingIsRead(text: string, name: string)
    requires ' ' !in name && PREFIX + name + " " + UNSET <= text
    ensures ParseLine("# " + text + "\n") == NotSet(name)
  {
    FourParts(PREFIX, name, [' '], UNSET, text, "\n");
    var tail := text[|PREFIX + name + [' '] + UNSET|..] + "\n";
    UnsettingParts(name, tail);
    assert "# " + text + "\n" == "# " + (text + "\n");
  }

  lemma UnsettingParts(name: string, tail: string)
    requires ' ' !in name
    ensures ParseLine("# " + (PREFIX + (name + [' '] + (UNSET + tail)))) == NotSet(name)
  {
    var rest := name + [' '] + (UNSET + tail);
    Drop("# ", PREFIX + rest);
    Drop(PREFIX, rest);
    assert "# " + (PREFIX + rest) == ("# " + PREFIX) + rest;
    Drop("# " + PREFIX, rest);
    Drop(UNSET, tail);
    NameFirst(name, ' ', UNSET + tail);
  }

  lemma ParseUnset(name: string)
    requires IsName(name)
    ensures IsWholeLine("# " + PREFIX + name + " " + UNSET + "\n")
    ensures ParseLine("# " + PREFIX + name + " " + UNSET + "\n") == NotSet(name)
  {
    WholeLine("# " + PREFIX + name + " " + UNSET);
    UnsettingIsRead(PREFIX + name + " " + UNSET, name);
    InFront("# ", PREFIX, name, " ", UNSET);
  }

  lemma InFront(x: string, a: string, b: string, c: string, d: string)
    ensures x + (a + b + c + d) == x + a + b + c + d
  {}

  lemma ParseAssign(name: string, value: string)
    requires IsName(name) && '\n' !in value
    ensures IsWholeLine(PREFIX + name + "=" + value + "\n")
    ensures ParseLine(PREFIX + name + "=" + value + "\n") == Assign(name, CutRaw(value + "\n"))
  {
    var rest := name + ['='] + (value + "\n");
    WholeLine(PREFIX + name + "=" + value);
    assert PREFIX + name + "=" + value + "\n" == PREFIX + rest;
    Drop(PREFIX, rest);
    NameFirst(name, '=', value + "\n");
  }

  /** A value that does not end in a carriage return is read as it was written. */
  lemma CutPrinted(value: string)
    requires '\n' !in value
    ensures CutRaw(value + "\n") == if value != "" && value[|value| - 1] == '\r' then value[..|value| - 1] else value
  {
    var raw := value + "\n";
    assert raw[..|value|] == value;
    IndexOfIs(raw, '\n', |value|);
  }

  lemma {:induction false} EscapeKeepsLine(s: string)
    requires '\n' !in s
    ensures '\n' !in EscapeBody(s)
  {
    if s != "" { EscapeKeepsLine(s[1..]); }
  }

  /** The setting that reading back gives, if any: a number is read without a carriage
      return at its end. */
  function Restored(s: Symbol, v: SymVal): Option<SymVal>
    requires s.Config?
  {
    if IsLogical(s) then Some(SymVal("", v.tri))
    else if s.typ == StringType then Some(SymVal(v.val, NO))
    else
      var t := if v.val != "" && v.val[|v.val| - 1] == '\r' then v.val[..|v.val| - 1] else v.val;
      if IsValidText(s.typ, t) then Some(SymVal(t, NO)) else None
  }

  /** The value comes back exactly if it is valid for its type. */
  lemma RestoredIff(s: Symbol, v: SymVal)
    requires s.Config?
    ensures Restored(s, v) == Some(if IsLogical(s) then SymVal("", v.tri) else SymVal(v.val, NO))
            <==> IsLogical(s) || IsValidText(s.typ, v.val)
  {
    if v.val != "" && v.val[|v.val| - 1] == '\r' { ReturnIsNoDigit(v.val); }
  }

  /** What a printed line is read as. */
  function PrintedKind(name: string, s: Symbol, v: SymVal, modules: Tristate): LineKind
    requires s.Config?
  {
    if IsLogical(s) && v.tri == NO then NotSet(name)
    else
      var value := StringValue(s, v, modules);
      Assign(name, CutRaw((if s.typ == StringType then Escape(value) else value) + "\n"))
  }

  lemma ParsePrinted(name: string, s: Symbol, v: SymVal, modules: Tristate)
    requires s.Config? && IsName(name) && IsPlain(s, v, modules)
    ensures IsWholeLine(PrintSetting(name, s, v, modules))
    ensures ParseLine(PrintSetting(name, s, v, modules)) == PrintedKind(name, s, v, modules)
  {
    var value := StringValue(s, v, modules);
    if IsLogical(s) && v.tri == NO {
      ParseUnset(name);
    } else {
      if s.typ == StringType {
        EscapeKeepsLine(value);
        value := Escape(value);
      }
      ParseAssign(name, value);
    }
  }

  lemma AssignedString(value: string)
    requires '\n' !in value
    ensures Assigned(StringType, CutRaw(Escape(value) + "\n")) == Some(SymVal(value, NO))
  {
    EscapeKeepsLine(value);
    CutPrinted(Escape(value));
    var body := EscapeBody(value) + "\"" + "";
    UnescapeEscape(value, "");
    assert Escape(value) == "\"" + body;
    Drop("\"", body);
  }

  lemma AssignedLogical(typ: SymbolType, tri: Tristate)
    requires typ == TristateType || (typ == BooleanType && tri != MOD)
    ensures Assigned(typ, CutRaw(TriString(tri) + "\n")) == Some(SymVal("", tri))
  {
    CutPrinted(TriString(tri));
  }

  lemma AssignedNumber(s: Symbol, v: SymVal)
    requires HasVisibility(s) && !IsLogical(s) && s.typ != StringType && '\n' !in v.val
    ensures Assigned(s.typ, CutRaw(v.val + "\n")) == Restored(s, v)
  {
    CutPrinted(v.val);
  }

  /** What is assigned is what reading back promises. */
  lemma AssignedKind(name: string, s: Symbol, v: SymVal, modules: Tristate)
    requires HasVisibility(s) && IsPlain(s, v, modules)
    ensures var kind := PrintedKind(name, s, v, modules);
      match kind
      case NotSet(n) => n == name && IsLogical(s) && Restored(s, v) == Some(SymVal("", NO))
      case Assign(n, raw) => n == name && Assigned(s.typ, raw) == Restored(s, v)
      case Skip => false
  {
    if IsLogical(s) {
      if v.tri != NO {
        assert StringValue(s, v, modules) == TriString(v.tri);
        AssignedLogical(s.typ, v.tri);
      }
    } else if s.typ == StringType {
      AssignedString(v.val);
    } else {
      AssignedNumber(s, v);
    }
  }

  lemma TakeKind(types: map<string, SymbolType>, user: Settings, name: string, s: Symbol, v: SymVal, modules: Tristate)
    requires HasVisibility(s) && name in types && types[name] == s.typ && IsPlain(s, v, modules)
    ensures Take(types, user, PrintedKind(name, s, v, modules))
         == if Restored(s, v).Some? then user[name := Restored(s, v).value] else user
  {
    AssignedKind(name, s, v, modules);
  }

  /** One line, read back. */
  lemma TakePrinted(types: map<string, SymbolType>, user: Settings, name: string, s: Symbol, v: SymVal, modules: Tristate)
    requires HasVisibility(s) && IsName(name) && name in types && types[name] == s.typ && IsPlain(s, v, modules)
    ensures var line := PrintSetting(name, s, v, modules); IsWholeLine(line) && Retype(types, ParseLine(line)) == types
    ensures Take(types, user, ParseLine(PrintSetting(name, s, v, modules)))
         == if Restored(s, v).Some? then user[name := Restored(s, v).value] else user
  {
    ParsePrinted(name, s, v, modules);
    TakeKind(types, user, name, s, v, modules);
  }

  lemma ReturnIsNoDigit(s: string)
    requires s != "" && s[|s| - 1] == '\r'
    ensures !IsDecimal(s) && !IsHexNumber(s)
  {
    if s[0] == '-' { var t := s[1..]; assert t != "" ==> t[|t| - 1] == '\r'; }
    if |s| >= 2 { var t := s[2..]; assert t != "" ==> t[|t| - 1] == '\r'; }
  }

  /** A heading that does not break its line. */
  ghost predicate IsHeading(text: string) { NUL !in text && '\n' !in text }

  /** Text that reads like the line for a declared symbol that is not set. */
  ghost predicate Unsets(types: map<string, SymbolType>, text: string) {
    exists name :: name in types && UnsetsName(types, text, name)
  }

  predicate UnsetsName(types: map<string, SymbolType>, text: string, name: string)
    requires name in types
  {
    types[name] in {BooleanType, TristateType} && ' ' !in name && PREFIX + name + " " + UNSET <= text
  }

  /** A heading that does not. */
  ghost predicate IsHarmless(types: map<string, SymbolType>, text: string) {
    IsHeading(text) && !Unsets(types, text)
  }

  lemma {:induction false} NothingAssigned(types: map<string, SymbolType>, lines: seq<string>)
    requires forall i :: 0 <= i < |lines| ==> !ParseLine(lines[i]).Assign?
    ensures KeepTypes(types, lines)
  {
    if lines != [] { NothingAssigned(types, lines[1..]); }
  }

  lemma TitleKeepsTypes(types: map<string, SymbolType>, text: string)
    ensures KeepTypes(types, PrintTitle(text))
  {
    ParseEmpty();
    var lines := PrintTitle(text);
    assert lines[2] == "# " + text + "\n" && lines[2][0] == '#';
    NothingAssigned(types, lines);
  }

  /** Reading a heading back has the effect of the one line that holds its text. */
  lemma TakeTitle(types: map<string, SymbolType>, user: Settings, text: string)
    requires IsHeading(text)
    ensures AllWhole(PrintTitle(text)) && KeepTypes(types, PrintTitle(text))
    ensures TakeAll(types, user, PrintTitle(text)) == Take(types, user, ParseLine("# " + text + "\n"))
  {
    var line := "# " + text + "\n";
    WholeLine("# " + text);
    WholeLine("#");
    WholeLine("");
    assert "" + "\n" == "\n" && "#" + "\n" == "#\n";
    ParseEmpty();
    var last := ["#\n"];
    var lines := [line] + last;
    assert PrintTitle(text) == ["\n"] + (["#\n"] + lines);
    assert last[1..] == [];
    TitleKeepsTypes(types, text);
    TakeFirst(types, user, "\n", ["#\n"] + lines);
    TakeFirst(types, user, "#\n", lines);
    TakeFirst(types, user, line, last);
  }

  lemma ParseEmpty()
    ensures ParseLine("\n") == Skip && ParseLine("#\n") == Skip
  {}

  lemma TakeFirst(types: map<string, SymbolType>, user: Settings, line: string, lines: seq<string>)
    requires IsWholeLine(line)
    ensures TakeAll(types, user, [line] + lines) == TakeAll(types, Take(types, user, ParseLine(line)), lines)
    ensures AllWhole(lines) ==> AllWhole([line] + lines)
  {
    assert ([line] + lines)[1..] == lines;
  }

  /** Only a heading that begins like the unsetting of a name is read as one. */
  lemma ReadIsUnsetting(text: string, name: string)
    requires ParseLine("# " + text + "\n") == NotSet(name)
    ensures ' ' !in name && PREFIX + name + " " + UNSET <= text
  {
    var line, more := "# " + text + "\n", text + "\n";
    assert line == "# " + more;
    Drop("# ", more);
    assert line[2 + |PREFIX|..] == more[|PREFIX|..];
    InFourParts(PREFIX, name, " ", UNSET, more);
    NoBreak(PREFIX + name + " " + UNSET, text);
  }

  lemma InFourParts(a: string, b: string, c: string, d: string, s: string)
    requires a <= s && b <= s[|a|..] && c <= s[|a|..][|b|..] && d <= s[|a|..][|b|..][|c|..]
    ensures a + b + c + d <= s
  {
    var t := s[|a|..];
    var u := t[|b|..];
    assert s == a + t && t == b + u && u == c + u[|c|..];
    assert s == a + b + c + d + u[|c|..][|d|..];
  }

  /** A prefix without a newline ends before it. */
  lemma NoBreak(t: string, text: string)
    requires t <= text + "\n" && t != "" && t[|t| - 1] != '\n'
    ensures t <= text
  {
    assert t[|t| - 1] == (text + "\n")[|t| - 1];
    assert (text + "\n")[..|t|] == text[..|t|];
  }

  /** So a heading changes no settings, whatever they are, if and only if it is harmless. */
  lemma HarmlessIff(types: map<string, SymbolType>, text: string)
    requires IsHeading(text)
    ensures (forall user :: TakeAll(types, user, PrintTitle(text)) == user) <==> IsHarmless(types, text)
  {
    var k := ParseLine("# " + text + "\n");
    if IsHarmless(types, text) {
      if k.NotSet? {
        ReadIsUnsetting(text, k.name);
        assert k.name in types ==> !UnsetsName(types, text, k.name);
      }
      forall user ensures TakeAll(types, user, PrintTitle(text)) == user { TakeTitle(types, user, text); }
    } else {
      var name :| name in types && UnsetsName(types, text, name);
      UnsettingIsRead(text, name);
      var none: Settings := map[];
      TakeTitle(types, none, text);
      assert name in Take(types, none, k);
    }
  }

  /** For example, one that reads like the line for a symbol that is not set unsets it. */
  lemma HeadingCanUnset(types: map<string, SymbolType>, user: Settings, name: string)
    requires IsName(name) && name in types && types[name] in {BooleanType, TristateType}
    ensures TakeAll(types, user, PrintTitle(PREFIX + name + " " + UNSET)) == user[name := SymVal("", NO)]
  {
    var text := PREFIX + name + " " + UNSET;
    UnsettingIsRead(text, name);
    UnsetIsHeading(name);
    TakeTitle(types, user, text);
  }

  lemma UnsetIsHeading(name: string)
    requires IsName(name)
    ensures IsHeading(PREFIX + name + " " + UNSET)
  {}

  /** What the file says of one entry is what the declarations say. */
  ghost predicate IsGoodItem(types: map<string, SymbolType>, g: Graph, modules: Tristate, it: Item) {
    match it
    case Title(text) => IsHarmless(types, text)
    case Setting(s, v) =>
      && s in g && s.Config? && IsName(g[s].name) && IsPlain(s, v, modules)
      && g[s].name in types && types[g[s].name] == s.typ
  }

  ghost predicate IsGood(types: map<string, SymbolType>, g: Graph, modules: Tristate, doc: seq<Item>) {
    forall i :: 0 <= i < |doc| ==> IsGoodItem(types, g, modules, doc[i])
  }

  function ReadItem(g: Graph, user: Settings, it: Item): Settings {
    if it.Setting? && it.sym in g && it.sym.Config? && Restored(it.sym, it.value).Some? then
      user[g[it.sym].name := Restored(it.sym, it.value).value]
    else user
  }

  /** The settings that a file gives back. */
  function ReadBack(g: Graph, doc: seq<Item>): Settings {
    if doc == [] then map[] else ReadItem(g, ReadBack(g, doc[..|doc| - 1]), doc[|doc| - 1])
  }

  lemma TakeItem(types: map<string, SymbolType>, g: Graph, modules: Tristate, user: Settings, it: Item)
    requires IsGoodItem(types, g, modules, it)
    ensures AllWhole(PrintItem(g, modules, it)) && KeepTypes(types, PrintItem(g, modules, it))
    ensures TakeAll(types, user, PrintItem(g, modules, it)) == ReadItem(g, user, it)
  {
    match it
    case Title(text) => TakeTitle(types, user, text); HarmlessIff(types, text);
    case Setting(s, v) =>
      if HasVisibility(s) {
        TakePrinted(types, user, g[s].name, s, v, modules);
        var line := PrintSetting(g[s].name, s, v, modules);
        assert [line][1..] == [];
      }
  }

  lemma {:induction false} ReadDocument(types: map<string, SymbolType>, g: Graph, modules: Tristate, doc: seq<Item>, more: string)
    requires IsGood(types, g, modules, doc)
    ensures ReadText(types, map[], FileText(g, modules, doc) + more) == ReadText(types, ReadBack(g, doc), more)
  {
    if doc == [] {
      assert FileText(g, modules, doc) + more == more;
    } else {
      var before, it := doc[..|doc| - 1], doc[|doc| - 1];
      var lines := PrintItem(g, modules, it);
      ReadDocument(types, g, modules, before, Concat(lines) + more);
      Concat3(FileText(g, modules, before), Concat(lines), more);
      TakeItem(types, g, modules, ReadBack(g, before), it);
      ReadLines(types, ReadBack(g, before), lines, more);
    }
  }

  ghost predicate DistinctNames(g: Graph, doc: seq<Item>) {
    forall i, j :: 0 <= i < j < |doc| && doc[i].Setting? && doc[j].Setting? && doc[i].sym in g && doc[j].sym in g ==>
      g[doc[i].sym].name != g[doc[j].sym].name
  }

  /** Each setting of a file comes back, wherever it stands, exactly if it can, */
  lemma {:induction false} ReadBackAt(g: Graph, doc: seq<Item>, i: nat)
    requires DistinctNames(g, doc) && i < |doc| && doc[i].Setting? && doc[i].sym in g && doc[i].sym.Config?
    ensures var n, r := g[doc[i].sym].name, Restored(doc[i].sym, doc[i].value);
            (n in ReadBack(g, doc) <==> r.Some?) && (r.Some? ==> ReadBack(g, doc)[n] == r.value)
  {
    var before := doc[..|doc| - 1];
    if i < |before| {
      ReadBackAt(g, before, i);
    } else {
      ReadBackOnly(g, before, g[doc[i].sym].name);
    }
  }

  /** and no other setting does. */
  lemma {:induction false} ReadBackOnly(g: Graph, doc: seq<Item>, name: string)
    requires forall i :: 0 <= i < |doc| && doc[i].Setting? && doc[i].sym in g ==> g[doc[i].sym].name != name
    ensures name !in ReadBack(g, doc)
  {
    if doc != [] { ReadBackOnly(g, doc[..|doc| - 1], name); }
  }

  /** The round trip of a whole file: reading it back gives every setting its value
      if and only if the value is valid for its type. */
  lemma RoundTrip(types: map<string, SymbolType>, g: Graph, modules: Tristate, doc: seq<Item>, i: nat)
    requires IsGood(types, g, modules, doc) && DistinctNames(g, doc) && i < |doc| && doc[i].Setting?
    ensures var user, s, v := ReadText(types, map[], FileText(g, modules, doc)), doc[i].sym, doc[i].value;
      (g[s].name in user && user[g[s].name] == if IsLogical(s) then SymVal("", v.tri) else SymVal(v.val, NO))
      <==> IsLogical(s) || IsValidText(s.typ, v.val)
  {
    assert IsGoodItem(types, g, modules, doc[i]);
    assert FileText(g, modules, doc) + "" == FileText(g, modules, doc);
    ReadDocument(types, g, modules, doc, "");
    ReadBackAt(g, doc, i);
    RestoredIff(doc[i].sym, doc[i].value);
  }
}
