/** sh.c's parser as code: the cursor moves through loops, and nulterminate overwrites the
    line. */
module ShellCode {
  import opened Shell
  import opened ShellRoundTrip

  // ------------------------------------------------------------------- every span is a token

  /** A maximal run of word characters. */
  ghost predicate IsToken(s: string, a: Span) {
    && a.lo < a.hi <= |s| && (forall i :: a.lo <= i < a.hi ==> !IsWs(s[i]) && !IsSym(s[i]))
    && (a.hi < |s| ==> IsWs(s[a.hi]) || IsSym(s[a.hi]))
  }

  ghost predicate AllTokens(s: string, c: Cmd) {
    match c
    case Exec(args) => forall i :: 0 <= i < |args| ==> IsToken(s, args[i])
    case Redir(c', file, _, _) => AllTokens(s, c') && IsToken(s, file)
    case Pipe(l, r) => AllTokens(s, l) && AllTokens(s, r)
    case List(l, r) => AllTokens(s, l) && AllTokens(s, r)
    case Back(c') => AllTokens(s, c')
  }

  lemma {:induction false} RedirsTokens(c: Cmd, s: string, p: nat)
    requires p <= |s| && AllTokens(s, c) && Redirs(c, s, p).Ok?
    ensures AllTokens(s, Redirs(c, s, p).c)
    decreases |s| - p
  {
    hide GetTok, SkipWs, Peek;
    if Peek(s, p, "<>") {
      var t := GetTok(s, SkipWs(s, p));
      var f := GetTok(s, t.next);
      PeekKind(s, p, "<>");
      RedirsTokens(Redirect(c, t.kind, Span(f.q, f.eq)), s, f.next);
    }
  }

  lemma {:induction false} WithArgTokens(c: Cmd, a: Span, s: string)
    requires AllTokens(s, c) && IsToken(s, a)
    ensures AllTokens(s, WithArg(c, a))
  {
    if c.Redir? { WithArgTokens(c.cmd, a, s); }
  }

  lemma {:induction false} ArgsTokens(ret: Cmd, argc: nat, s: string, p: nat)
    requires p <= |s| && AllTokens(s, ret) && Args(ret, argc, s, p).Ok?
    ensures AllTokens(s, Args(ret, argc, s, p).c)
    decreases |s| - p
  {
    hide GetTok, Redirs, AllTokens, SkipWs;
    if !Peek(s, p, "|)&;") {
      var t := GetTok(s, SkipWs(s, p));
      if t.kind == 'a' {
        WithArgTokens(ret, Span(t.q, t.eq), s);
        var r := Redirs(WithArg(ret, Span(t.q, t.eq)), s, t.next);
        RedirsTokens(WithArg(ret, Span(t.q, t.eq)), s, t.next);
        ArgsTokens(r.c, argc + 1, s, r.p);
      }
    }
  }

  lemma {:induction false} BacksTokens(c: Cmd, s: string, p: nat)
    requires p <= |s| && AllTokens(s, c)
    ensures AllTokens(s, Backs(c, s, p).c)
    decreases |s| - p
  {
    if Peek(s, p, "&") { BacksTokens(Back(c), s, GetTok(s, SkipWs(s, p)).next); }
  }

  lemma {:induction false} ExecTokens(s: string, p: nat)
    requires p <= |s| && ParseExec(s, p).Ok?
    ensures AllTokens(s, ParseExec(s, p).c)
    decreases |s| - p, 1
  {
    if Peek(s, p, "(") {
      BlockTokens(s, SkipWs(s, p));
    } else {
      RedirsTokens(Exec([]), s, SkipWs(s, p));
      var r := Redirs(Exec([]), s, SkipWs(s, p));
      ArgsTokens(r.c, 0, s, r.p);
    }
  }

  lemma {:induction false} BlockTokens(s: string, p: nat)
    requires p <= |s| && ParseBlock(s, p).Ok?
    ensures AllTokens(s, ParseBlock(s, p).c)
    decreases |s| - p, 0
  {
    hide AllTokens;
    var next := GetTok(s, SkipWs(s, p)).next;
    LineTokens(s, next);
    var r := ParseLine(s, next);
    RedirsTokens(r.c, s, GetTok(s, SkipWs(s, r.p)).next);
  }

  lemma {:induction false} PipeTokens(s: string, p: nat)
    requires p <= |s| && ParsePipe(s, p).Ok?
    ensures AllTokens(s, ParsePipe(s, p).c)
    decreases |s| - p, 2
  {
    ExecTokens(s, p);
    var r := ParseExec(s, p);
    if Peek(s, r.p, "|") { PipeTokens(s, GetTok(s, SkipWs(s, r.p)).next); }
  }

  lemma {:induction false} LineTokens(s: string, p: nat)
    requires p <= |s| && ParseLine(s, p).Ok?
    ensures AllTokens(s, ParseLine(s, p).c)
    decreases |s| - p, 3
  {
    PipeTokens(s, p);
    var r := ParsePipe(s, p);
    BacksTokens(r.c, s, r.p);
    var b := Backs(r.c, s, r.p);
    if Peek(s, b.p, ";") { LineTokens(s, GetTok(s, SkipWs(s, b.p)).next); }
  }

  // -------------------------------------------------------------------- nulterminate

  ghost predicate HasSpan(c: Cmd, a: Span) {
    match c
    case Exec(args) => a in args
    case Redir(c', file, _, _) => HasSpan(c', a) || a == file
    case Pipe(l, r) => HasSpan(l, a) || HasSpan(r, a)
    case List(l, r) => HasSpan(l, a) || HasSpan(r, a)
    case Back(c') => HasSpan(c', a)
  }

  /** Position i is the end of a token of c. */
  ghost predicate IsEnd(c: Cmd, i: nat) { exists a :: HasSpan(c, a) && a.hi == i }

  /** The line with a NUL at the end of every token of c. */
  ghost predicate Terminated(b: seq<char>, b': seq<char>, c: Cmd) {
    |b'| == |b| && forall i: nat | i < |b| :: b'[i] == if IsEnd(c, i) then '\0' else b[i]
  }

  ghost predicate Within(c: Cmd, n: nat) { forall a :: HasSpan(c, a) ==> a.hi < n }

  lemma TerminatedBoth(b: seq<char>, b1: seq<char>, b2: seq<char>, c: Cmd, l: Cmd, r: Cmd)
    requires Terminated(b, b1, l) && Terminated(b1, b2, r)
    requires forall a :: HasSpan(c, a) <==> HasSpan(l, a) || HasSpan(r, a)
    ensures Terminated(b, b2, c)
  {
    forall i: nat | i < |b| ensures b2[i] == if IsEnd(c, i) then '\0' else b[i] {
      assert IsEnd(c, i) <==> IsEnd(l, i) || IsEnd(r, i);
    }
  }

  /** nulterminate. */
  method Nulterminate(buf: array<char>, c: Cmd)
    requires Within(c, buf.Length)
    modifies buf
    ensures Terminated(old(buf[..]), buf[..], c)
    decreases c
  {
    ghost var b := buf[..];
    match c
    case Exec(args) =>
      var i := 0;
      while i < |args|
        invariant i <= |args| && Terminated(b, buf[..], Exec(args[..i]))
      {
        assert HasSpan(c, args[i]);
        ghost var b1 := buf[..];
        buf[args[i].hi] := '\0';
        OneMore(b, b1, buf[..], args, i);
        i := i + 1;
      }
      assert args[..i] == args;
    case Redir(c', file, mode, fd) =>
      assert HasSpan(c, file) && Within(c', buf.Length) by { assert forall a :: HasSpan(c', a) ==> HasSpan(c, a); }
      Nulterminate(buf, c');
      ghost var b1 := buf[..];
      buf[file.hi] := '\0';
      FileEnd(b, b1, buf[..], c);
    case Pipe(l, r) =>
      BothWithin(c, l, r, buf.Length);
      Nulterminate(buf, l);
      ghost var b1 := buf[..];
      Nulterminate(buf, r);
      TerminatedBoth(b, b1, buf[..], c, l, r);
    case List(l, r) =>
      BothWithin(c, l, r, buf.Length);
      Nulterminate(buf, l);
      ghost var b1 := buf[..];
      Nulterminate(buf, r);
      TerminatedBoth(b, b1, buf[..], c, l, r);
    case Back(c') =>
      BothWithin(c, c', c', buf.Length);
      Nulterminate(buf, c');
      SameEnds(b, buf[..], c, c');
  }

  lemma BothWithin(c: Cmd, l: Cmd, r: Cmd, n: nat)
    requires Within(c, n) && forall a :: HasSpan(c, a) <==> HasSpan(l, a) || HasSpan(r, a)
    ensures Within(l, n) && Within(r, n)
  {
  }

  lemma SameEnds(b: seq<char>, b': seq<char>, c: Cmd, c': Cmd)
    requires Terminated(b, b', c') && forall a :: HasSpan(c, a) <==> HasSpan(c', a)
    ensures Terminated(b, b', c)
  {
    forall i: nat | i < |b| ensures b'[i] == if IsEnd(c, i) then '\0' else b[i] {
      assert IsEnd(c, i) <==> IsEnd(c', i);
    }
  }

  lemma OneMore(b: seq<char>, b1: seq<char>, b2: seq<char>, args: seq<Span>, n: nat)
    requires n < |args| && Terminated(b, b1, Exec(args[..n])) && args[n].hi < |b1| && b2 == b1[args[n].hi := '\0']
    ensures Terminated(b, b2, Exec(args[..n + 1]))
  {
    var c, c' := Exec(args[..n]), Exec(args[..n + 1]);
    forall a ensures HasSpan(c', a) <==> HasSpan(c, a) || a == args[n] {
      assert args[..n + 1] == args[..n] + [args[n]];
    }
    forall i: nat | i < |b| ensures b2[i] == if IsEnd(c', i) then '\0' else b[i] {
      if i == args[n].hi { assert HasSpan(c', args[n]); }
      assert IsEnd(c', i) <==> IsEnd(c, i) || i == args[n].hi;
    }
  }

  lemma FileEnd(b: seq<char>, b1: seq<char>, b2: seq<char>, c: Cmd)
    requires c.Redir? && Terminated(b, b1, c.cmd) && c.file.hi < |b1| && b2 == b1[c.file.hi := '\0']
    ensures Terminated(b, b2, c)
  {
    forall i: nat | i < |b| ensures b2[i] == if IsEnd(c, i) then '\0' else b[i] {
      if i == c.file.hi { assert HasSpan(c, c.file); }
      assert IsEnd(c, i) <==> IsEnd(c.cmd, i) || i == c.file.hi;
    }
  }

  /** The C string at p. */
  ghost function CString(b: seq<char>, p: nat): string
    decreases |b| - p
  {
    if p >= |b| || b[p] == '\0' then "" else [b[p]] + CString(b, p + 1)
  }

  lemma {:induction false} CStringIs(b: seq<char>, p: nat, q: nat)
    requires p <= q < |b| && b[q] == '\0' && forall i :: p <= i < q ==> b[i] != '\0'
    ensures CString(b, p) == b[p..q]
    decreases q - p
  {
    if p < q { CStringIs(b, p + 1, q); }
  }

  lemma {:induction false} SpanIsToken(s: string, c: Cmd, a: Span)
    requires AllTokens(s, c) && HasSpan(c, a)
    ensures IsToken(s, a)
  {
    match c
    case Exec(_) =>
    case Redir(c', file, _, _) => if a != file { SpanIsToken(s, c', a); }
    case Pipe(l, r) => if HasSpan(l, a) { SpanIsToken(s, l, a); } else { SpanIsToken(s, r, a); }
    case List(l, r) => if HasSpan(l, a) { SpanIsToken(s, l, a); } else { SpanIsToken(s, r, a); }
    case Back(c') => SpanIsToken(s, c', a);
  }

  ghost predicate NoNul(s: string) { forall i :: 0 <= i < |s| ==> s[i] != '\0' }

  // ---------------------------------------------------------------------- the parser

  /** gettoken. */
  method GetToken(line: string, p: nat) returns (t: Tok)
    requires p <= |line|
    ensures t == GetTok(line, p)
  {
    var s := p;
    while s < |line| && IsWs(line[s])
      invariant p <= s <= |line| && SkipWs(line, s) == SkipWs(line, p)
    {
      s := s + 1;
    }
    var q := s;
    var kind := if s < |line| then line[s] else '\0';
    if kind == '\0' {
    } else if kind == '|' || kind == '(' || kind == ')' || kind == ';' || kind == '&' || kind == '<' {
      s := s + 1;
    } else if kind == '>' {
      s := s + 1;
      if s < |line| && line[s] == '>' {
        kind := '+';
        s := s + 1;
      }
    } else {
      kind := 'a';
      while s < |line| && !IsWs(line[s]) && !IsSym(line[s])
        invariant q <= s <= |line| && SkipWord(line, s) == SkipWord(line, q)
      {
        s := s + 1;
      }
    }
    var eq := s;
    while s < |line| && IsWs(line[s])
      invariant eq <= s <= |line| && SkipWs(line, s) == SkipWs(line, eq)
    {
      s := s + 1;
    }
    return Tok(kind, q, eq, s);
  }

  /** peek: the moved cursor and the answer. */
  method PeekAt(line: string, p: nat, toks: string) returns (next: nat, found: bool)
    requires p <= |line|
    ensures next == SkipWs(line, p) && found == Peek(line, p, toks)
  {
    next := p;
    while next < |line| && IsWs(line[next])
      invariant p <= next <= |line| && SkipWs(line, next) == SkipWs(line, p)
    {
      next := next + 1;
    }
    found := next < |line| && line[next] != '\0' && line[next] in toks;
  }

  /** parseredirs. */
  method ParseRedirs(c0: Cmd, line: string, p0: nat) returns (r: Res)
    requires p0 <= |line|
    ensures r == Redirs(c0, line, p0)
  {
    hide GetTok, SkipWs, Peek;
    var c, p := c0, p0;
    while true
      invariant p <= |line| && Redirs(c0, line, p0) == Redirs(c, line, p)
      decreases |line| - p
    {
      var q, more := PeekAt(line, p, "<>");
      if !more { return Ok(c, q); }
      var t := GetToken(line, q);
      PeekKind(line, p, "<>");
      var f := GetToken(line, t.next);
      if f.kind != 'a' { return Fail(MissingFile); }
      c, p := Redirect(c, t.kind, Span(f.q, f.eq)), f.next;
    }
  }

  lemma PeekKind(s: string, p: nat, toks: string)
    requires p <= |s| && Peek(s, p, toks)
    ensures var t := GetTok(s, SkipWs(s, p)); t.kind != '\0' && p < t.next
  {
  }

  /** parseexec. */
  method ParseExecCmd(line: string, p0: nat) returns (r: Res)
    requires p0 <= |line|
    ensures r == ParseExec(line, p0)
    decreases |line| - p0, 1
  {
    hide GetTok, SkipWs, Peek, Redirs;
    var p, block := PeekAt(line, p0, "(");
    if block {
      r := ParseBlockCmd(line, p);
      return;
    }
    var ret := Exec([]);
    var argc := 0;
    r := ParseRedirs(ret, line, p);
    if r.Fail? { return; }
    ret, p := r.c, r.p;
    while true
      invariant p <= |line| && ParseExec(line, p0) == Args(ret, argc, line, p)
      decreases |line| - p
    {
      var q, end := PeekAt(line, p, "|)&;");
      if end { return Ok(ret, q); }
      var t := GetToken(line, q);
      if t.kind == '\0' { return Ok(ret, t.next); }
      if t.kind != 'a' { return Fail(Syntax); }
      ret := WithArg(ret, Span(t.q, t.eq));
      argc := argc + 1;
      if argc >= MAXARGS { return Fail(TooManyArgs); }
      r := ParseRedirs(ret, line, t.next);
      if r.Fail? { return; }
      ret, p := r.c, r.p;
    }
  }

  /** parseblock. */
  method ParseBlockCmd(line: string, p0: nat) returns (r: Res)
    requires p0 <= |line|
    ensures r == ParseBlock(line, p0)
    decreases |line| - p0, 0
  {
    hide GetTok, SkipWs, Peek, Redirs, ParseLine;
    var p, ok := PeekAt(line, p0, "(");
    if !ok { return Fail(NoBlock); }
    PeekKind(line, p0, "(");
    var t := GetToken(line, p);
    r := ParseLineCmd(line, t.next);
    if r.Fail? { return; }
    p, ok := PeekAt(line, r.p, ")");
    if !ok { return Fail(MissingParen); }
    t := GetToken(line, p);
    r := ParseRedirs(r.c, line, t.next);
  }

  /** parsepipe. */
  method ParsePipeCmd(line: string, p0: nat) returns (r: Res)
    requires p0 <= |line|
    ensures r == ParsePipe(line, p0)
    decreases |line| - p0, 2
  {
    hide GetTok, SkipWs, Peek, ParseExec;
    r := ParseExecCmd(line, p0);
    if r.Fail? { return; }
    var c := r.c;
    var p, more := PeekAt(line, r.p, "|");
    if !more { return Ok(c, p); }
    PeekKind(line, r.p, "|");
    var t := GetToken(line, p);
    r := ParsePipeCmd(line, t.next);
    if r.Fail? { return; }
    return Ok(Pipe(c, r.c), r.p);
  }

  /** parseline. */
  method ParseLineCmd(line: string, p0: nat) returns (r: Res)
    requires p0 <= |line|
    ensures r == ParseLine(line, p0)
    decreases |line| - p0, 3
  {
    hide GetTok, SkipWs, Peek, ParsePipe;
    r := ParsePipeCmd(line, p0);
    if r.Fail? { return; }
    var c, p := r.c, r.p;
    while true
      invariant p0 <= p <= |line| && Backs(r.c, line, r.p) == Backs(c, line, p)
      decreases |line| - p
    {
      var q, back := PeekAt(line, p, "&");
      if !back { p := q; break; }
      PeekKind(line, p, "&");
      var t := GetToken(line, q);
      c, p := Back(c), t.next;
    }
    assert Backs(r.c, line, r.p) == Ok(c, p);
    var q, list := PeekAt(line, p, ";");
    if !list { return Ok(c, q); }
    PeekKind(line, p, ";");
    var t := GetToken(line, q);
    var rest := ParseLineCmd(line, t.next);
    if rest.Fail? { return rest; }
    return Ok(List(c, rest.c), rest.p);
  }

  /** parsecmd on a C string: the command, and the buffer in which each of its words now
      reads back as it was parsed. */
  method ParseCommand(buf: array<char>) returns (r: Res, ghost line: string)
    requires exists n :: 0 <= n < buf.Length && buf[n] == '\0'
    modifies buf
    ensures |line| < buf.Length && line == old(buf[..])[..|line|] && NoNul(line) && old(buf[..])[|line|] == '\0'
    ensures r == ParseCmd(line)
    ensures r.Ok? ==> forall a :: HasSpan(r.c, a) ==>
              a.lo <= a.hi <= |line| && CString(buf[..], a.lo) == line[a.lo..a.hi]
    ensures r.Fail? ==> buf[..] == old(buf[..])
  {
    var n := 0;
    while buf[n] != '\0'
      invariant 0 <= n < buf.Length && forall i :: 0 <= i < n ==> buf[i] != '\0'
      decreases buf.Length - n
    {
      n := n + 1;
    }
    var text := buf[..n];
    line := text;
    r := ParseLineCmd(text, 0);
    if r.Fail? { return; }
    var p, _ := PeekAt(text, r.p, "");
    if p != n { return Fail(Leftovers), line; }
    LineTokens(text, 0);
    ghost var b := buf[..];
    EndsWithin(text, r.c, buf.Length);
    Nulterminate(buf, r.c);
    forall a | HasSpan(r.c, a) ensures a.lo <= a.hi <= |line| && CString(buf[..], a.lo) == line[a.lo..a.hi] {
      ReadsBack(text, b, buf[..], r.c, a);
    }
    return Ok(r.c, n), line;
  }

  lemma EndsWithin(s: string, c: Cmd, n: nat)
    requires AllTokens(s, c) && |s| < n
    ensures Within(c, n)
  {
    forall a | HasSpan(c, a) ensures a.hi < n { SpanIsToken(s, c, a); }
  }

  /** No NUL is written inside a token, so every argument and file name reads back as it
      was parsed. */
  lemma ReadsBack(s: string, b: seq<char>, b': seq<char>, c: Cmd, a: Span)
    requires |s| < |b| && s == b[..|s|] && b[|s|] == '\0' && NoNul(s) && AllTokens(s, c) && HasSpan(c, a)
    requires Terminated(b, b', c)
    ensures a.lo <= a.hi <= |s| && CString(b', a.lo) == s[a.lo..a.hi]
  {
    SpanIsToken(s, c, a);
    forall i: nat | a.lo <= i < a.hi ensures b'[i] == s[i] {
      if IsEnd(c, i) {
        var e :| HasSpan(c, e) && e.hi == i;
        SpanIsToken(s, c, e);
      }
    }
    assert IsEnd(c, a.hi);
    CStringIs(b', a.lo, a.hi);
  }
}
