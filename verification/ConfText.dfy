/** Quoted strings of a `.config` file: sym_escape_string_value and the unescaping in
    conf_set_sym_val, which works in place on the line buffer (symbol.c, confdata.c). */
module ConfText {
  import opened Exprs
  import opened Sequences

  const NUL: char := '\0'

  predicate IsSpecial(c: char) { c == '"' || c == '\\' }

  /** A C string: no NUL inside. */
  predicate IsText(s: string) { NUL !in s }

  /** The characters of a string behind backslashes, where they need them. */
  function EscapeBody(s: string): string {
    if s == "" then "" else (if IsSpecial(s[0]) then ['\\', s[0]] else [s[0]]) + EscapeBody(s[1..])
  }

  function Escape(s: string): string { "\"" + EscapeBody(s) + "\"" }

  /** Only quotes and backslashes are changed. */
  lemma {:induction false} EscapePlain(s: string)
    requires '"' !in s && '\\' !in s
    ensures EscapeBody(s) == s && Escape(s) == "\"" + s + "\""
  {
    if s != "" {
      EscapePlain(s[1..]);
      assert s == [s[0]] + s[1..];
    }
  }

  /** What stands before the closing quote, backslashes taken away; None without one. */
  function Unescape(s: string): Option<string> {
    if s == "" then None
    else if s[0] == '"' then Some("")
    else if s[0] == '\\' then (if |s| == 1 then None else Prepend(s[1], Unescape(s[2..])))
    else Prepend(s[0], Unescape(s[1..]))
  }

  function Prepend(c: char, s: Option<string>): Option<string> {
    if s.None? then None else Some([c] + s.value)
  }

  /** Unescaping inverts escaping, whatever follows the closing quote. */
  lemma {:induction false} UnescapeEscape(s: string, more: string)
    ensures Unescape(EscapeBody(s) + "\"" + more) == Some(s)
  {
    var t := EscapeBody(s) + "\"" + more;
    if s == "" {
      assert t == "\"" + more;
    } else {
      UnescapeEscape(s[1..], more);
      var u := EscapeBody(s[1..]) + "\"" + more;
      assert t == (if IsSpecial(s[0]) then ['\\', s[0]] else [s[0]]) + u;
      if IsSpecial(s[0]) {
        assert t[2..] == u;
      } else {
        assert t[1..] == u;
      }
      assert s == [s[0]] + s[1..];
    }
  }

  /** strcspn(s, "\"\\"). */
  function Span(s: string): (l: nat)
    ensures l <= |s| && (l < |s| ==> IsSpecial(s[l]))
    ensures forall i :: 0 <= i < l ==> !IsSpecial(s[i])
  {
    if s == "" || IsSpecial(s[0]) then 0 else 1 + Span(s[1..])
  }

  lemma {:induction false} EscapeSpan(s: string)
    ensures EscapeBody(s) == s[..Span(s)] + EscapeBody(s[Span(s)..])
  {
    if s != "" && !IsSpecial(s[0]) {
      EscapeSpan(s[1..]);
      assert s[..Span(s)] == [s[0]] + s[1..][..Span(s[1..])];
      assert s[Span(s)..] == s[1..][Span(s[1..])..];
    } else {
      assert s[..0] == "" && s[0..] == s;
    }
  }

  lemma {:induction false} EscapeIsText(s: string)
    requires IsText(s)
    ensures IsText(EscapeBody(s))
  {
    if s != "" { EscapeIsText(s[1..]); }
  }

  /** One round of either loop of sym_escape_string_value: a plain stretch, then a
      special character. */
  lemma EscapeRound(input: string, p: nat)
    requires p <= |input|
    ensures var q := p + Span(input[p..]);
      && q <= |input|
      && EscapeBody(input[p..]) == input[p..q] + EscapeBody(input[q..])
      && (q < |input| ==> IsSpecial(input[q]) && EscapeBody(input[q..]) == ['\\', input[q]] + EscapeBody(input[q + 1..]))
      && (q == |input| ==> EscapeBody(input[q..]) == "")
  {
    EscapeSpan(input[p..]);
    var l := Span(input[p..]);
    assert input[p..][..l] == input[p..p + l] && input[p..][l..] == input[p + l..];
    if p + l < |input| { assert input[p + l..][1..] == input[p + l + 1..]; }
  }

  /** The string that starts at `p` in the buffer ends at `n`. */
  ghost predicate EndsAt(buf: seq<char>, p: nat, n: nat) {
    p <= n < |buf| && buf[n] == NUL && forall i :: p <= i < n ==> buf[i] != NUL
  }

  /** strcat(buf, s), for a buffer whose string ends at `n`. */
  method StrCat(buf: array<char>, n: nat, s: string) returns (n': nat)
    requires n + |s| < buf.Length && EndsAt(buf[..], 0, n) && IsText(s)
    modifies buf
    ensures n' == n + |s| && EndsAt(buf[..], 0, n') && buf[..n'] == old(buf[..n]) + s
  {
    var i := 0;
    while i < |s|
      invariant i <= |s|
      invariant forall j :: 0 <= j < n ==> buf[j] == old(buf[j])
      invariant forall j :: 0 <= j < i ==> buf[n + j] == s[j]
    {
      buf[n + i] := s[i];
      i := i + 1;
    }
    buf[n + |s|] := NUL;
    n' := n + |s|;
    assert forall j :: n <= j < n' ==> buf[j] == s[j - n];
  }

  /** The first loop of sym_escape_string_value: the size of the result. */
  method EscapedSize(input: string) returns (reslen: nat)
    ensures reslen == |Escape(input)| + 1
  {
    reslen := |input| + 2 + 1;
    var p := 0;
    assert input[0..] == input;
    while true
      invariant p <= |input| && reslen + |EscapeBody(input[p..])| == |EscapeBody(input)| + (|input| - p) + 3
      invariant reslen + |EscapeBody(input[p..])| - (|input| - p) == |EscapeBody(input)| + 3
      decreases |input| - p
    {
      EscapeRound(input, p);
      p := p + Span(input[p..]);
      if p == |input| { break; }
      reslen := reslen + 1;
      p := p + 1;
    }
  }

  /** Some of `s[p..]` is escaped into `buf`: what is there and what is to come stays. */
  ghost predicate Escaping(buf: seq<char>, n: nat, s: string, p: nat, all: string) {
    p <= |s| && EndsAt(buf, 0, n) && buf[..n] + EscapeBody(s[p..]) == all
  }

  /** One round of the second loop: a stretch, and a special character if there is one. */
  method EscapeStretch(res: array<char>, n: nat, s: string, p: nat, ghost all: string) returns (n': nat, p': nat, last: bool)
    requires IsText(s) && Escaping(res[..], n, s, p, all) && |all| < res.Length
    modifies res
    ensures Escaping(res[..], n', s, p', all) && (last ==> p' == |s|) && (!last ==> p < p')
  {
    EscapeRound(s, p);
    var q := p + Span(s[p..]);
    Concat3(res[..n], s[p..q], EscapeBody(s[q..]));
    n' := StrCat(res, n, s[p..q]);
    p', last := q, q == |s|;
    if !last {
      ghost var before := res[..n'];
      Concat3(before, ['\\', s[q]], EscapeBody(s[q + 1..]));
      n' := StrCat(res, n', "\\");
      n' := StrCat(res, n', [s[q]]);
      assert res[..n'] == before + ['\\', s[q]];
      p' := q + 1;
    }
  }

  /** sym_escape_string_value: the buffer is exactly as long as the result needs. */
  method EscapeStringValue(input: string) returns (res: array<char>)
    requires IsText(input)
    ensures fresh(res) && res.Length == |Escape(input)| + 1
    ensures res[..|Escape(input)|] == Escape(input) && EndsAt(res[..], 0, |Escape(input)|)
  {
    var reslen := EscapedSize(input);
    res := new char[reslen];
    res[0] := NUL;
    ghost var all := "\"" + EscapeBody(input);
    var n := StrCat(res, 0, "\"");
    var p: nat, last := 0, false;
    assert input[0..] == input;
    while !last
      invariant Escaping(res[..], n, input, p, all) && (last ==> p == |input|)
      decreases !last, |input| - p
    {
      n, p, last := EscapeStretch(res, n, input, p, all);
    }
    assert EscapeBody(input[p..]) == "" && res[..n] == all;
    n := StrCat(res, n, "\"");
  }

  /** strpbrk(buf + p, "\"\\"), for a string that ends at `n`: where the first special
      character stands, or `n`. */
  method StrPbrk(buf: array<char>, p: nat, ghost n: nat) returns (q: nat)
    requires EndsAt(buf[..], p, n)
    ensures p <= q <= n && (q < n ==> IsSpecial(buf[q]))
    ensures forall i :: p <= i < q ==> !IsSpecial(buf[i])
  {
    q := p;
    while buf[q] != NUL && !IsSpecial(buf[q])
      invariant p <= q <= n && forall i :: p <= i < q ==> !IsSpecial(buf[i])
      decreases n - q
    {
      q := q + 1;
    }
  }

  /** memmove(p, p + 1, strlen(p)), for a string that ends at `n`. */
  method MoveDown(buf: array<char>, p: nat, n: nat)
    requires p < n < buf.Length
    modifies buf
    ensures buf[..p] == old(buf[..p]) && buf[p..n] == old(buf[p + 1..n + 1]) && buf[n..] == old(buf[n..])
  {
    var i := p;
    while i < n
      invariant p <= i <= n
      invariant forall j :: 0 <= j < p ==> buf[j] == old(buf[j])
      invariant forall j :: p <= j < i ==> buf[j] == old(buf[j + 1])
      invariant forall j :: i <= j < buf.Length ==> buf[j] == old(buf[j])
    {
      buf[i] := buf[i + 1];
      i := i + 1;
    }
  }

  /** strlen, from `p` on. */
  method StrLen(buf: array<char>, p: nat, ghost n: nat) returns (l: nat)
    requires EndsAt(buf[..], p, n)
    ensures p + l == n
  {
    l := 0;
    while buf[p + l] != NUL
      invariant p + l <= n
      decreases n - (p + l)
    {
      l := l + 1;
    }
  }

  function Join(done: string, rest: Option<string>): Option<string> {
    if rest.None? then None else Some(done + rest.value)
  }

  /** A plain stretch passes through unescaping. */
  lemma {:induction false} UnescapeStretch(a: string, b: string)
    requires forall i :: 0 <= i < |a| ==> !IsSpecial(a[i])
    ensures Unescape(a + b) == Join(a, Unescape(b))
  {
    if a == "" {
      assert a + b == b;
      if Unescape(b).Some? { assert "" + Unescape(b).value == Unescape(b).value; }
    } else {
      UnescapeStretch(a[1..], b);
      assert (a + b)[1..] == a[1..] + b;
      assert forall t: string :: [a[0]] + (a[1..] + t) == a + t;
    }
  }

  /** Where unescaping stands: the string `s` began at `p`; what is before `q` is done,
      what is from there to `n` is still to come, and a second NUL follows. */
  ghost predicate Unescaping(buf: seq<char>, p: nat, q: nat, n: nat, s: string) {
    && p <= q && EndsAt(buf, q, n) && n + 1 < |buf| && buf[n + 1] == NUL
    && Unescape(s) == Join(buf[p..q], Unescape(buf[q..n]))
    && (q < n ==> NUL !in buf[p..q])
  }

  lemma JoinJoin(a: string, b: string, c: Option<string>)
    ensures Join(a, Join(b, c)) == Join(a + b, c) && Join("", c) == c
  {
    if c.Some? { Concat3(a, b, c.value); assert "" + c.value == c.value; }
  }

  /** Skipping a stretch without special characters, */
  lemma UnescapingPass(buf: seq<char>, p: nat, q: nat, q': nat, n: nat, s: string)
    requires Unescaping(buf, p, q, n, s) && q <= q' <= n && forall i :: q <= i < q' ==> !IsSpecial(buf[i])
    ensures Unescaping(buf, p, q', n, s)
  {
    UnescapeStretch(buf[q..q'], buf[q'..n]);
    assert buf[q..q'] + buf[q'..n] == buf[q..n];
    JoinJoin(buf[p..q], buf[q..q'], Unescape(buf[q'..n]));
    assert buf[p..q] + buf[q..q'] == buf[p..q'];
  }

  /** and dropping a backslash, after which the next character is skipped. If the
      backslash was the last character, the second NUL ends the search. */
  lemma UnescapingDrop(buf: seq<char>, buf': seq<char>, p: nat, q: nat, n: nat, s: string)
    requires Unescaping(buf, p, q, n, s) && q < n && buf[q] == '\\' && |buf'| == |buf|
    requires buf'[..q] == buf[..q] && buf'[q..n] == buf[q + 1..n + 1] && buf'[n..] == buf[n..]
    ensures Unescaping(buf', p, q + 1, if q + 1 < n then n - 1 else n, s)
  {
    assert buf'[n] == buf[n..][0] == NUL && buf'[n + 1] == buf[n..][1] == NUL;
    assert buf'[p..q] == buf'[..q][p..] == buf[p..q];
    var t := buf[q..n];
    if q + 1 < n {
      assert forall i :: q <= i < n ==> buf'[i] == buf'[q..n][i - q] == buf[i + 1];
      assert t[2..] == buf[q + 2..n] == buf'[q + 1..n - 1] && t[1] == buf[q + 1] == buf'[q];
      JoinJoin(buf[p..q], [t[1]], Unescape(t[2..]));
      assert buf[p..q] + [t[1]] == buf'[p..q + 1];
    } else {
      assert buf'[n..n] == "";
    }
  }

  lemma UnescapingQuote(buf: seq<char>, p: nat, q: nat, n: nat, s: string)
    requires Unescaping(buf, p, q, n, s) && q < n && buf[q] == '"'
    ensures Unescape(s) == Some(buf[p..q]) && NUL !in buf[p..q]
  {
    assert buf[q..n][0] == '"';
    assert buf[p..q] + "" == buf[p..q];
  }

  method CloseQuote(buf: array<char>, p: nat, q: nat, ghost n: nat, ghost s: string)
    requires Unescaping(buf[..], p, q, n, s) && q < n && buf[q] == '"'
    modifies buf
    ensures EndsAt(buf[..], p, q) && Unescape(s) == Some(buf[p..q]) && buf[..p] == old(buf[..p])
  {
    UnescapingQuote(buf[..], p, q, n, s);
    ghost var t := buf[p..q];
    buf[q] := NUL;
    assert buf[p..q] == t;
  }

  method DropBackslash(buf: array<char>, p: nat, q: nat, ghost n: nat, ghost s: string) returns (ghost n': nat)
    requires Unescaping(buf[..], p, q, n, s) && q < n && buf[q] == '\\'
    modifies buf
    ensures Unescaping(buf[..], p, q + 1, n', s) && n' - (q + 1) < n - q && buf[..p] == old(buf[..p])
  {
    ghost var before := buf[..];
    var l := StrLen(buf, q, n);
    MoveDown(buf, q, q + l);
    UnescapingDrop(before, buf[..], p, q, n, s);
    n' := if q + 1 < n then n - 1 else n;
    assert buf[..p] == buf[..q][..p] == before[..p];
  }

  /** The case S_STRING of conf_set_sym_val, behind the opening quote: the characters
      after backslashes move down in the line buffer itself. */
  method UnescapeInPlace(buf: array<char>, p: nat, ghost n0: nat) returns (ok: bool, end: nat)
    requires EndsAt(buf[..], p, n0) && n0 + 1 < buf.Length && buf[n0 + 1] == NUL
    modifies buf
    ensures ok <==> Unescape(old(buf[p..n0])).Some?
    ensures ok ==> EndsAt(buf[..], p, end) && buf[p..end] == Unescape(old(buf[p..n0])).value
    ensures buf[..p] == old(buf[..p])
  {
    ghost var s, n: nat := buf[p..n0], n0;
    end := p;
    assert buf[..][p..n0] == s && buf[..][p..p] == "";
    JoinJoin("", "", Unescape(s));
    while true
      invariant Unescaping(buf[..], p, end, n, s) && buf[..p] == old(buf[..p])
      decreases n - end
    {
      ghost var q := end;
      end := StrPbrk(buf, end, n);
      UnescapingPass(buf[..], p, q, end, n, s);
      if buf[end] == NUL { assert buf[..][end..n] == ""; return false, end; }
      if buf[end] == '"' {
        CloseQuote(buf, p, end, n, s);
        return true, end;
      }
      n := DropBackslash(buf, p, end, n, s);
      end := end + 1;
    }
  }
}
