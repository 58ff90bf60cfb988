/** One line of a `.config` file: what conf_read_simple takes from it, cutting it up in
    the line buffer, and which values are valid (confdata.c, symbol.c). */
module ConfLine {
  import opened Tristates
  import opened Exprs
  import opened SymbolValue
  import opened ConfText

  const PREFIX: string := "CONFIG_"
  const UNSET: string := "is not set"

  predicate IsDigit(c: char) { '0' <= c <= '9' }

  predicate IsHexDigit(c: char) { IsDigit(c) || 'a' <= c <= 'f' || 'A' <= c <= 'F' }

  predicate AllDigits(s: string) { forall i :: 0 <= i < |s| ==> IsDigit(s[i]) }

  predicate AllHexDigits(s: string) { forall i :: 0 <= i < |s| ==> IsHexDigit(s[i]) }

  /** Digits without a leading zero, perhaps negative. */
  predicate IsDecimal(s: string) {
    var t := if s != "" && s[0] == '-' then s[1..] else s;
    t != "" && AllDigits(t) && (t[0] == '0' ==> |t| == 1)
  }

  predicate IsHexNumber(s: string) {
    var t := if |s| >= 2 && s[0] == '0' && (s[1] == 'x' || s[1] == 'X') then s[2..] else s;
    t != "" && AllHexDigits(t)
  }

  /** What sym_string_valid accepts for each type. */
  predicate IsValidText(typ: SymbolType, s: string) {
    match typ
    case BooleanType => s != "" && s[0] in "yYmMnN"
    case TristateType => s != "" && s[0] in "yYmMnN"
    case StringType => true
    case IntType => IsDecimal(s)
    case HexType => IsHexNumber(s)
    case _ => false
  }

  /** sym_string_valid, for the string from `p` to `n`. */
  method StringValid(typ: SymbolType, buf: array<char>, p: nat, ghost n: nat) returns (b: bool)
    requires EndsAt(buf[..], p, n)
    ensures b == IsValidText(typ, buf[p..n])
  {
    match typ {
      case BooleanType => b := buf[p] in "yYmMnN";
      case TristateType => b := buf[p] in "yYmMnN";
      case StringType => b := true;
      case IntType => b := IntValid(buf, p, n);
      case HexType => b := HexValid(buf, p, n);
      case _ => b := false;
    }
  }

  /** The loops of sym_string_valid: only digits up to the end? */
  method OnlyDigits(buf: array<char>, p: nat, hex: bool, ghost n: nat) returns (b: bool)
    requires EndsAt(buf[..], p, n)
    ensures b == if hex then AllHexDigits(buf[p..n]) else AllDigits(buf[p..n])
  {
    var str := p;
    while buf[str] != NUL
      invariant p <= str <= n
      invariant forall i :: p <= i < str ==> if hex then IsHexDigit(buf[i]) else IsDigit(buf[i])
      decreases n - str
    {
      if !(if hex then IsHexDigit(buf[str]) else IsDigit(buf[str])) {
        assert buf[p..n][str - p] == buf[str];
        return false;
      }
      str := str + 1;
    }
    b := true;
  }

  method IntValid(buf: array<char>, p: nat, ghost n: nat) returns (b: bool)
    requires EndsAt(buf[..], p, n)
    ensures b == IsDecimal(buf[p..n])
  {
    var str := p;
    if buf[str] == '-' { str := str + 1; }
    ghost var s, t := buf[p..n], buf[str..n];
    assert t == if s != "" && s[0] == '-' then s[1..] else s;
    if !IsDigit(buf[str]) { return false; }
    assert t == [buf[str]] + buf[str + 1..n];
    if buf[str] == '0' && buf[str + 1] != NUL { return false; }
    b := OnlyDigits(buf, str + 1, false, n);
    DigitsSplit(buf[str], buf[str + 1..n]);
  }

  lemma DigitsSplit(c: char, s: string)
    ensures AllDigits([c] + s) <==> IsDigit(c) && AllDigits(s)
    ensures AllHexDigits([c] + s) <==> IsHexDigit(c) && AllHexDigits(s)
  {
    var t := [c] + s;
    assert t[0] == c && forall i :: 0 <= i < |s| ==> t[i + 1] == s[i];
    assert forall i :: 0 < i < |t| ==> t[i] == s[i - 1];
  }

  method HexValid(buf: array<char>, p: nat, ghost n: nat) returns (b: bool)
    requires EndsAt(buf[..], p, n)
    ensures b == IsHexNumber(buf[p..n])
  {
    var str := p;
    if buf[p] == '0' && (buf[p + 1] == 'x' || buf[p + 1] == 'X') { str := p + 2; }
    ghost var s, t := buf[p..n], buf[str..n];
    assert t == if |s| >= 2 && s[0] == '0' && (s[1] == 'x' || s[1] == 'X') then s[2..] else s;
    if !IsHexDigit(buf[str]) { return false; }
    assert t == [buf[str]] + buf[str + 1..n];
    b := OnlyDigits(buf, str + 1, true, n);
    DigitsSplit(buf[str], buf[str + 1..n]);
  }

  /** What one line says. */
  datatype LineKind = Skip | NotSet(name: string) | Assign(name: string, raw: string)

  /** Where `c` stands first, or the length. */
  function IndexOf(s: string, c: char): (i: nat)
    ensures i <= |s| && (i < |s| ==> s[i] == c) && c !in s[..i]
  {
    if s == "" || s[0] == c then 0 else 1 + IndexOf(s[1..], c)
  }

  lemma {:induction false} IndexOfIs(s: string, c: char, i: nat)
    requires i < |s| && s[i] == c && c !in s[..i]
    ensures IndexOf(s, c) == i
  {
    if i > 0 {
      assert s[..i][0] == s[0] && s[1..][..i - 1] == s[..i][1..];
      IndexOfIs(s[1..], c, i - 1);
    }
  }

  /** The value of an assignment: up to the newline, and a carriage return before it. */
  function CutRaw(raw: string): string {
    var j := IndexOf(raw, '\n');
    if j == |raw| then raw
    else if j > 0 && raw[j - 1] == '\r' then raw[..j - 1]
    else raw[..j]
  }

  function ParseLine(line: string): LineKind {
    if line != "" && line[0] == '#' then
      if |line| < 2 || !(PREFIX <= line[2..]) then Skip
      else
        var rest := line[2 + |PREFIX|..];
        var i := IndexOf(rest, ' ');
        if i == |rest| || !(UNSET <= rest[i + 1..]) then Skip else NotSet(rest[..i])
    else if PREFIX <= line then
      var rest := line[|PREFIX|..];
      var i := IndexOf(rest, '=');
      if i == |rest| then Skip else Assign(rest[..i], CutRaw(rest[i + 1..]))
    else Skip
  }

  /** The setting that conf_set_sym_val makes of a value, if it is valid. */
  function Assigned(typ: SymbolType, raw: string): Option<SymVal> {
    match typ
    case TristateType =>
      if raw != "" && raw[0] == 'm' then Some(SymVal("", MOD)) else AssignedBool(raw)
    case BooleanType => AssignedBool(raw)
    case StringType =>
      if raw == "" || raw[0] != '"' then None
      else if Unescape(raw[1..]).None? then None
      else Some(SymVal(Unescape(raw[1..]).value, NO))
    case IntType => if IsDecimal(raw) then Some(SymVal(raw, NO)) else None
    case HexType => if IsHexNumber(raw) then Some(SymVal(raw, NO)) else None
    case OtherType => if IsBare(raw) then Some(SymVal(raw, NO)) else None
    case UnknownType => None
  }

  /** A value without quotes. */
  predicate IsBare(raw: string) { raw == "" || raw[0] != '"' }

  function AssignedBool(raw: string): Option<SymVal> {
    if raw != "" && raw[0] == 'y' then Some(SymVal("", YES))
    else if raw != "" && raw[0] == 'n' then Some(SymVal("", NO))
    else None
  }

  type Settings = map<string, SymVal>

  /** What a line does to the settings; `types` are the symbols that sym_find finds. */
  function Take(types: map<string, SymbolType>, user: Settings, line: LineKind): Settings {
    match line
    case Skip => user
    case NotSet(name) =>
      if name in types && types[name] in {BooleanType, TristateType} then user[name := SymVal("", NO)] else user
    case Assign(name, raw) =>
      if name in types && Assigned(types[name], raw).Some? then user[name := Assigned(types[name], raw).value] else user
  }

  /** A symbol of type S_OTHER becomes a string with its first value without quotes; one
      in quotes is found invalid. */
  function Retype(types: map<string, SymbolType>, line: LineKind): map<string, SymbolType> {
    match line
    case Assign(name, raw) =>
      if name in types && types[name] == OtherType && IsBare(raw) then types[name := StringType] else types
    case _ => types
  }

  /** memcmp and strncmp of a string constant with what starts at `p`. */
  method StartsWith(buf: array<char>, p: nat, lit: string, ghost n: nat) returns (b: bool)
    requires EndsAt(buf[..], p, n) && IsText(lit)
    ensures b == (lit <= buf[p..n])
  {
    var i := 0;
    while i < |lit|
      invariant i <= |lit| && p + i <= n && lit[..i] == buf[p..p + i]
    {
      if buf[p + i] != lit[i] {
        assert lit[i] in lit;
        return false;
      }
      assert lit[i] in lit;
      i := i + 1;
    }
    assert lit[..i] == lit && buf[p..n][..i] == buf[p..p + i];
    b := true;
  }

  /** strchr: where `c` stands first, or `n`. */
  method StrChr(buf: array<char>, p: nat, c: char, ghost n: nat) returns (q: nat)
    requires EndsAt(buf[..], p, n) && c != NUL
    ensures q == p + IndexOf(buf[p..n], c) && q <= n
  {
    q := p;
    while buf[q] != NUL && buf[q] != c
      invariant p <= q <= n && c !in buf[p..q]
      decreases n - q
    {
      q := q + 1;
    }
    if q < n {
      assert buf[p..n][..q - p] == buf[p..q];
      IndexOfIs(buf[p..n], c, q - p);
    } else {
      assert buf[p..n] == buf[p..q];
    }
  }
}
