/** The shell's parser: tokens, the recursive-descent grammar, and what it makes of a line. */
module Shell {

  const MAXARGS: nat := 10
  const O_RDONLY: nat := 0x000
  const O_WRONLY: nat := 0x001
  const O_CREATE: nat := 0x200
  const O_TRUNC: nat := 0x400

  /** Space, tab, carriage return, newline and vertical tab. */
  predicate IsWs(c: char) { c == ' ' || c == '\t' || c == '\r' || c == '\n' || c == '\U{0B}' }
  predicate IsSym(c: char) { c == '<' || c == '|' || c == '>' || c == '&' || c == ';' || c == '(' || c == ')' }

  /** A character of a word. */
  predicate IsWordChar(c: char) { c != '\0' && !IsWs(c) && !IsSym(c) }

  /** The pointers q and eq of a token, as positions in the line. */
  datatype Span = Span(lo: nat, hi: nat)

  datatype Cmd =
    | Exec(args: seq<Span>)
    | Redir(cmd: Cmd, file: Span, mode: nat, fd: nat)
    | Pipe(left: Cmd, right: Cmd)
    | List(left: Cmd, right: Cmd)
    | Back(cmd: Cmd)

  datatype Error = MissingFile | NoBlock | MissingParen | Syntax | TooManyArgs | Leftovers

  /** A parse: the command and the cursor after it, or the panic. */
  datatype Res = Ok(c: Cmd, p: nat) | Fail(e: Error)

  // ------------------------------------------------------------------- tokens

  function SkipWs(s: string, p: nat): (r: nat)
    requires p <= |s|
    ensures p <= r <= |s| && (r < |s| ==> !IsWs(s[r]))
    decreases |s| - p
  {
    if p < |s| && IsWs(s[p]) then SkipWs(s, p + 1) else p
  }

  function SkipWord(s: string, p: nat): (r: nat)
    requires p <= |s|
    ensures p <= r <= |s| && (forall i :: p <= i < r ==> !IsWs(s[i]) && !IsSym(s[i]))
    ensures r < |s| ==> IsWs(s[r]) || IsSym(s[r])
    decreases |s| - p
  {
    if p < |s| && !IsWs(s[p]) && !IsSym(s[p]) then SkipWord(s, p + 1) else p
  }

  /** gettoken's result: the kind, the two ends of the token, and the cursor. */
  datatype Tok = Tok(kind: char, q: nat, eq: nat, next: nat)

  function GetTok(s: string, p: nat): (t: Tok)
    requires p <= |s|
    ensures p <= t.q <= t.eq <= t.next <= |s|
    ensures t.kind != '\0' ==> t.q < t.eq
    ensures t.kind == 'a' ==>
              (forall i :: t.q <= i < t.eq ==> !IsWs(s[i]) && !IsSym(s[i]))
              && (t.eq < |s| ==> IsWs(s[t.eq]) || IsSym(s[t.eq]))
  {
    var q := SkipWs(s, p);
    if q == |s| || s[q] == '\0' then Tok('\0', q, q, q)
    else if s[q] == '>' then
      if q + 1 < |s| && s[q + 1] == '>' then Tok('+', q, q + 2, SkipWs(s, q + 2))
      else Tok('>', q, q + 1, SkipWs(s, q + 1))
    else if IsSym(s[q]) then Tok(s[q], q, q + 1, SkipWs(s, q + 1))
    else var eq := SkipWord(s, q); Tok('a', q, eq, SkipWs(s, eq))
  }

  /** peek's answer at the cursor, which it moves to SkipWs(s, p). */
  predicate Peek(s: string, p: nat, toks: string)
    requires p <= |s|
  {
    var q := SkipWs(s, p);
    q < |s| && s[q] != '\0' && s[q] in toks
  }

  // ---------------------------------------------------------------- the grammar

  /** redircmd for the token kind of a redirection. */
  function Redirect(c: Cmd, kind: char, file: Span): Cmd {
    if kind == '<' then Redir(c, file, O_RDONLY, 0)
    else if kind == '>' then Redir(c, file, O_WRONLY + O_CREATE + O_TRUNC, 1)
    else Redir(c, file, O_WRONLY + O_CREATE, 1)
  }

  function Redirs(c: Cmd, s: string, p: nat): (r: Res)
    requires p <= |s|
    ensures r.Ok? ==> p <= r.p <= |s|
    decreases |s| - p
  {
    if !Peek(s, p, "<>") then Ok(c, SkipWs(s, p))
    else
      var t := GetTok(s, SkipWs(s, p));
      var f := GetTok(s, t.next);
      if f.kind != 'a' then Fail(MissingFile) else Redirs(Redirect(c, t.kind, Span(f.q, f.eq)), s, f.next)
  }

  /** One more argument in the innermost execcmd. */
  function WithArg(c: Cmd, a: Span): Cmd {
    match c
    case Exec(args) => Exec(args + [a])
    case Redir(c', file, mode, fd) => Redir(WithArg(c', a), file, mode, fd)
    case _ => c
  }

  /** parseexec's loop with argc arguments so far. */
  function Args(ret: Cmd, argc: nat, s: string, p: nat): (r: Res)
    requires p <= |s|
    ensures r.Ok? ==> p <= r.p <= |s|
    decreases |s| - p
  {
    if Peek(s, p, "|)&;") then Ok(ret, SkipWs(s, p))
    else
      var t := GetTok(s, SkipWs(s, p));
      if t.kind == '\0' then Ok(ret, t.next)
      else if t.kind != 'a' then Fail(Syntax)
      else if argc + 1 >= MAXARGS then Fail(TooManyArgs)
      else
        var r := Redirs(WithArg(ret, Span(t.q, t.eq)), s, t.next);
        if r.Fail? then r else Args(r.c, argc + 1, s, r.p)
  }

  function ParseExec(s: string, p: nat): (r: Res)
    requires p <= |s|
    ensures r.Ok? ==> p <= r.p <= |s|
    decreases |s| - p, 1
  {
    if Peek(s, p, "(") then ParseBlock(s, SkipWs(s, p))
    else
      var r := Redirs(Exec([]), s, SkipWs(s, p));
      if r.Fail? then r else Args(r.c, 0, s, r.p)
  }

  function ParseBlock(s: string, p: nat): (r: Res)
    requires p <= |s|
    ensures r.Ok? ==> p <= r.p <= |s|
    decreases |s| - p, 0
  {
    if !Peek(s, p, "(") then Fail(NoBlock)
    else
      var r := ParseLine(s, GetTok(s, SkipWs(s, p)).next);
      if r.Fail? then r
      else if !Peek(s, r.p, ")") then Fail(MissingParen)
      else Redirs(r.c, s, GetTok(s, SkipWs(s, r.p)).next)
  }

  function ParsePipe(s: string, p: nat): (r: Res)
    requires p <= |s|
    ensures r.Ok? ==> p <= r.p <= |s|
    decreases |s| - p, 2
  {
    var r := ParseExec(s, p);
    if r.Fail? then r
    else if !Peek(s, r.p, "|") then Ok(r.c, SkipWs(s, r.p))
    else
      var r' := ParsePipe(s, GetTok(s, SkipWs(s, r.p)).next);
      if r'.Fail? then r' else Ok(Pipe(r.c, r'.c), r'.p)
  }

  /** parseline's loop over "&". */
  function Backs(c: Cmd, s: string, p: nat): (r: Res)
    requires p <= |s|
    ensures r.Ok? && p <= r.p <= |s|
    decreases |s| - p
  {
    if Peek(s, p, "&") then Backs(Back(c), s, GetTok(s, SkipWs(s, p)).next) else Ok(c, SkipWs(s, p))
  }

  function ParseLine(s: string, p: nat): (r: Res)
    requires p <= |s|
    ensures r.Ok? ==> p <= r.p <= |s|
    decreases |s| - p, 3
  {
    var r := ParsePipe(s, p);
    if r.Fail? then r
    else
      var b := Backs(r.c, s, r.p);
      if !Peek(s, b.p, ";") then Ok(b.c, SkipWs(s, b.p))
      else
        var r' := ParseLine(s, GetTok(s, SkipWs(s, b.p)).next);
        if r'.Fail? then r' else Ok(List(b.c, r'.c), r'.p)
  }

  function ParseCmd(s: string): (r: Res) {
    var r := ParseLine(s, 0);
    if r.Fail? then r else if SkipWs(s, r.p) != |s| then Fail(Leftovers) else Ok(r.c, |s|)
  }
}
