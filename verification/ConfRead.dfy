/** conf_read_simple for the user's settings: the lines one by one, each cut up in its
    buffer (confdata.c). */
module ConfRead {
  import opened Tristates
  import opened Exprs
  import opened SymbolValue
  import opened ConfText
  import opened ConfLine
  import opened Sequences

  /** A line in its buffer, up to `n`: a newline stands at its end only; if it has none,
      the byte behind its NUL is NUL too. */
  ghost predicate IsLine(buf: seq<char>, n: nat) {
    && n > 0 && EndsAt(buf, 0, n) && (forall i :: 0 <= i < n - 1 ==> buf[i] != '\n')
    && (buf[n - 1] != '\n' ==> n + 1 < |buf| && buf[n + 1] == NUL)
  }

  function LineLength(text: string): (l: nat)
    ensures l <= |text| && (text != "" ==> l > 0)
  {
    var i := IndexOf(text, '\n');
    if i < |text| then i + 1 else i
  }

  /** The settings after reading a file. */
  function ReadText(types: map<string, SymbolType>, user: Settings, text: string): Settings
    decreases |text|
  {
    if text == "" then user
    else
      var l := LineLength(text);
      var line := ParseLine(text[..l]);
      ReadText(Retype(types, line), Take(types, user, line), text[l..])
  }

  class Reader {
    /** The types of the symbols by their names. */
    var types: map<string, SymbolType>
    /** `def[S_DEF_USER]` of the symbols with SYMBOL_DEF_USER set. */
    var user: Settings

    /** A symbol with a setting is known, and no longer of the type S_OTHER. */
    ghost predicate Valid()
      reads this
    {
      forall s :: s in user ==> s in types && types[s] != OtherType
    }

    constructor (types: map<string, SymbolType>)
      ensures Valid() && this.types == types && user == map[]
    {
      this.types, user := types, map[];
    }

    /** conf_set_sym_val, for the value from `p` to `n`. */
    method SetSymVal(name: string, buf: array<char>, p: nat, ghost n: nat)
      requires Valid() && name in types
      requires EndsAt(buf[..], p, n) && n + 1 < buf.Length && buf[n + 1] == NUL
      modifies this, buf
      ensures Valid() && Took(Assign(name, old(buf[p..n])))
    {
      match types[name] {
        case TristateType =>
          if buf[p] == 'm' { user := user[name := SymVal("", MOD)]; } else { SetBool(name, buf, p, n); }
        case BooleanType => SetBool(name, buf, p, n);
        case OtherType =>
          if buf[p] != '"' {
            types := types[name := StringType];
            SetText(name, buf, p, n);
          } else {
            SetString(name, buf, p, n);
          }
        case StringType => SetString(name, buf, p, n);
        case IntType =>
          var b := StringValid(IntType, buf, p, n);
          if b { SetText(name, buf, p, n); }
        case HexType =>
          var b := StringValid(HexType, buf, p, n);
          if b { SetText(name, buf, p, n); }
        case UnknownType =>
      }
    }

    /** The line had its effect on types and settings. */
    twostate predicate Took(line: LineKind)
      reads this
    {
      types == Retype(old(types), line) && user == Take(old(types), old(user), line)
    }

    method SetBool(name: string, buf: array<char>, p: nat, ghost n: nat)
      requires EndsAt(buf[..], p, n)
      modifies this`user
      ensures user == if AssignedBool(buf[p..n]).Some? then old(user)[name := AssignedBool(buf[p..n]).value] else old(user)
    {
      if buf[p] == 'y' {
        user := user[name := SymVal("", YES)];
      } else if buf[p] == 'n' {
        user := user[name := SymVal("", NO)];
      }
    }

    /** strdup, up to the NUL. */
    method SetText(name: string, buf: array<char>, p: nat, ghost n: nat)
      requires EndsAt(buf[..], p, n)
      modifies this`user
      ensures user == old(user)[name := SymVal(buf[p..n], NO)]
    {
      var l := StrLen(buf, p, n);
      user := user[name := SymVal(buf[p..p + l], NO)];
    }

    method SetString(name: string, buf: array<char>, p: nat, ghost n: nat)
      requires EndsAt(buf[..], p, n) && n + 1 < buf.Length && buf[n + 1] == NUL
      requires name in types && (types[name] == StringType || (types[name] == OtherType && buf[p] == '"'))
      modifies this`user, buf
      ensures user == Take(types, old(user), Assign(name, old(buf[p..n])))
    {
      if buf[p] != '"' { return; }
      assert buf[p..n][1..] == buf[p + 1..n];
      var ok, end := UnescapeInPlace(buf, p + 1, n);
      if ok {
        var b := StringValid(types[name], buf, p + 1, end);
        if b { SetText(name, buf, p + 1, end); }
      }
    }

    /** The loop body of conf_read_simple. */
    method ReadLine(buf: array<char>, ghost n: nat)
      requires Valid() && IsLine(buf[..], n)
      modifies this, buf
      ensures Valid() && Took(ParseLine(old(buf[..n])))
    {
      assert buf[..n] == buf[0..n];
      if buf[0] == '#' {
        ReadUnset(buf, n);
      } else {
        var b := StartsWith(buf, 0, PREFIX, n);
        if b { ReadAssign(buf, n); }
      }
    }

    /** What a line that begins with a hash and the prefix says. */
    lemma HashLine(line: string)
      requires |line| >= 2 && line[0] == '#' && PREFIX <= line[2..]
      ensures var rest := line[2 + |PREFIX|..];
        var i := IndexOf(rest, ' ');
        ParseLine(line) == if i == |rest| || !(UNSET <= rest[i + 1..]) then Skip else NotSet(rest[..i])
    {}

    /** A line that begins with a hash. */
    method ReadUnset(buf: array<char>, ghost n: nat)
      requires Valid() && IsLine(buf[..], n) && buf[0] == '#'
      modifies this, buf
      ensures Valid() && Took(ParseLine(old(buf[..n])))
    {
      var found, name := FindUnset(buf, n);
      if found && name in types && types[name] in {BooleanType, TristateType} {
        user := user[name := SymVal("", NO)];
      }
    }

    /** The name that such a line says is not set, if any. */
    method FindUnset(buf: array<char>, ghost n: nat) returns (found: bool, name: string)
      requires IsLine(buf[..], n) && buf[0] == '#'
      modifies buf
      ensures ParseLine(old(buf[..n])) == if found then NotSet(name) else Skip
    {
      ghost var line := buf[..n];
      name := "";
      found := StartsWith(buf, 2, PREFIX, if n < 2 then 2 else n);
      assert n >= 2 ==> buf[2..n] == line[2..];
      if !found { return; }
      var a := 2 + |PREFIX|;
      ghost var rest := line[a..];
      HashLine(line);
      assert buf[a..n] == rest;
      var p := StrChr(buf, a, ' ', n);
      if buf[p] == NUL { return false, ""; }
      name := CutName(buf, a, p, n, rest);
      found := StartsWith(buf, p + 1, UNSET, n);
    }

    /** The separator at `p` becomes the end of the name. */
    method CutName(buf: array<char>, a: nat, p: nat, ghost n: nat, ghost rest: string) returns (name: string)
      requires a <= p < n && EndsAt(buf[..], a, n) && buf[a..n] == rest
      modifies buf
      ensures name == rest[..p - a] && buf[p + 1..n] == rest[p - a + 1..] && buf[p] == NUL
      ensures EndsAt(buf[..], p + 1, n) && buf[p + 1..] == old(buf[p + 1..])
    {
      SliceOfSlice(buf[..n], a, 0, p - a);
      SliceOfSlice(buf[..n], a, 0, p - a + 1);
      assert buf[..n][a..] == rest;
      buf[p] := NUL;
      name := buf[a..p];
    }

    /** What a line that begins with the prefix says. */
    lemma PrefixLine(line: string)
      requires PREFIX <= line
      ensures var rest := line[|PREFIX|..];
        var i := IndexOf(rest, '=');
        ParseLine(line) == if i == |rest| then Skip else Assign(rest[..i], CutRaw(rest[i + 1..]))
    {}

    /** A line that begins with the prefix. */
    method ReadAssign(buf: array<char>, ghost n: nat)
      requires Valid() && IsLine(buf[..], n) && buf[0] != '#' && PREFIX <= buf[..n]
      modifies this, buf
      ensures Valid() && Took(ParseLine(old(buf[..n])))
    {
      ghost var line, before := buf[..n], buf[..];
      var a := |PREFIX|;
      ghost var rest := line[a..];
      PrefixLine(line);
      assert buf[a..n] == rest;
      var p := StrChr(buf, a, '=', n);
      if buf[p] == NUL {
        assert ParseLine(line) == Skip;
        return;
      }
      var name := CutName(buf, a, p, n, rest);
      assert forall i :: p < i < buf.Length ==> buf[i] == buf[p + 1..][i - p - 1] == before[i];
      ghost var end := CutLine(buf, p + 1, n);
      assert ParseLine(line) == Assign(name, buf[p + 1..end]);
      if name in types { SetSymVal(name, buf, p + 1, end); }
    }

    /** Cutting the newline off, and a carriage return before it. */
    method CutLine(buf: array<char>, p: nat, ghost n: nat) returns (ghost end: nat)
      requires 0 < p <= n && EndsAt(buf[..], p, n) && buf[p - 1] == NUL
      requires forall i :: p <= i < n - 1 ==> buf[i] != '\n'
      requires p == n || buf[n - 1] != '\n' ==> n + 1 < buf.Length && buf[n + 1] == NUL
      modifies buf
      ensures EndsAt(buf[..], p, end) && end + 1 < buf.Length && buf[end + 1] == NUL
      ensures buf[p..end] == CutRaw(old(buf[p..n]))
    {
      ghost var raw := buf[p..n];
      var q := StrChr(buf, p, '\n', n);
      assert raw[..|raw|] == raw;
      if buf[q] == NUL { return n; }
      assert q == n - 1 && raw[..q - p] == buf[p..q];
      end := CutNewline(buf, p, q, raw);
    }

    method CutNewline(buf: array<char>, p: nat, q: nat, ghost raw: string) returns (ghost end: nat)
      requires 0 < p <= q && q - p < |raw| && EndsAt(buf[..], p, q + 1) && buf[p - 1] == NUL
      requires buf[p..q + 1] == raw && IndexOf(raw, '\n') == q - p
      modifies buf
      ensures EndsAt(buf[..], p, end) && end + 1 < buf.Length && buf[end + 1] == NUL
      ensures buf[p..end] == CutRaw(raw)
    {
      assert raw[..q - p] == buf[p..q];
      buf[q] := NUL;
      end := q;
      if buf[q - 1] == '\r' {
        assert raw[q - 1 - p] == '\r';
        end := CutReturn(buf, p, q, raw);
      }
    }

    method CutReturn(buf: array<char>, p: nat, q: nat, ghost raw: string) returns (ghost end: nat)
      requires p < q && q - p <= |raw| && EndsAt(buf[..], p, q) && buf[p..q] == raw[..q - p]
      modifies buf
      ensures end == q - 1 && EndsAt(buf[..], p, end) && end + 1 < buf.Length && buf[end + 1] == NUL
      ensures buf[p..end] == raw[..end - p]
    {
      end := q - 1;
      assert raw[..end - p] == raw[..q - p][..end - p] == buf[p..end];
      buf[q - 1] := NUL;
    }

    /** The loop over all symbols but those of type S_OTHER, which have no setting. */
    method Forget()
      requires Valid()
      modifies this`user
      ensures Valid() && user == map[]
    {
      user := map s | s in user && s in types && types[s] == OtherType :: user[s];
      assert user.Keys == {};
    }

    /** conf_read_simple: all settings are forgotten, then each line is taken. */
    method ReadSimple(text: string)
      requires Valid() && IsText(text)
      modifies this
      ensures Valid() && user == ReadText(old(types), map[], text)
    {
      Forget();
      var at: nat := 0;
      assert text[0..] == text;
      ghost var all := ReadText(types, map[], text);
      while at < |text|
        invariant Valid() && at <= |text| && ReadText(types, user, text[at..]) == all
      {
        at := ReadNext(text, at);
      }
      assert text[at..] == "";
    }

    /** The line from `at` on. */
    method ReadNext(text: string, at: nat) returns (next: nat)
      requires Valid() && IsText(text) && at < |text|
      modifies this
      ensures Valid() && at < next <= |text|
      ensures ReadText(types, user, text[next..]) == ReadText(old(types), old(user), text[at..])
    {
      ghost var rest := text[at..];
      var buf, l := GetLine(text, at);
      next := at + l;
      assert rest[l..] == text[next..];
      ReadLine(buf, l);
    }

    /** compat_getline: one line with its newline, in a buffer. */
    method GetLine(text: string, at: nat) returns (buf: array<char>, l: nat)
      requires IsText(text) && at < |text|
      ensures fresh(buf) && l == LineLength(text[at..]) && IsLine(buf[..], l) && buf[..l] == text[at..][..l]
    {
      l := LineLength(text[at..]);
      var rest := text[at..];
      buf := new char[l + 2](i requires 0 <= i < |rest| + 2 => if i < |rest| then rest[i] else NUL);
      buf[l], buf[l + 1] := NUL, NUL;
      LineInBuffer(rest, buf[..]);
    }

    lemma LineInBuffer(text: string, buf: seq<char>)
      requires text != "" && IsText(text)
      requires |buf| == LineLength(text) + 2 && buf == text[..LineLength(text)] + [NUL, NUL]
      ensures IsLine(buf, LineLength(text))
    {
      var l, i := LineLength(text), IndexOf(text, '\n');
      forall j | 0 <= j < l ensures buf[j] != NUL && (j < l - 1 ==> buf[j] != '\n') {
        assert buf[j] == text[j] && text[j] in text;
        if j < i { assert text[..i][j] == text[j]; }
      }
      if i == |text| { assert buf[l - 1] == text[..i][l - 1]; }
    }
  }
}
