/** A command tree printed with parentheses parses back to itself. */
module ShellRoundTrip {
  import opened Shell

  /** A command, with its words written out. */
  datatype Tree =
    | TExec(words: seq<string>)
    | TRedir(sub: Tree, file: string, op: char)
    | TPipe(left: Tree, right: Tree)
    | TList(left: Tree, right: Tree)
    | TBack(sub: Tree)

  ghost predicate IsWord(w: string) { w != "" && forall i :: 0 <= i < |w| ==> IsWordChar(w[i]) }

  /** Words free of separators, fewer than MAXARGS arguments, and a redirection operator:
      '<', '>' or '+' for ">>". */
  ghost predicate Good(t: Tree) {
    match t
    case TExec(ws) => |ws| < MAXARGS && forall i :: 0 <= i < |ws| ==> IsWord(ws[i])
    case TRedir(sub, f, op) => Good(sub) && IsWord(f) && (op == '<' || op == '>' || op == '+')
    case TPipe(l, r) => Good(l) && Good(r)
    case TList(l, r) => Good(l) && Good(r)
    case TBack(sub) => Good(sub)
  }

  function OpText(op: char): string { if op == '<' then "<" else if op == '>' then ">" else ">>" }

  /** What a simple command is made of: words and redirections, in any order. */
  datatype Item = W(word: string) | R(op: char, file: string)

  function Txt(i: Item): string { if i.W? then i.word else OpText(i.op) + i.file }

  function Join(items: seq<Item>): string {
    if |items| == 0 then "" else if |items| == 1 then Txt(items[0]) else Txt(items[0]) + " " + Join(items[1..])
  }

  function Words(ws: seq<string>): (r: seq<Item>)
    ensures |r| == |ws| && forall i :: 0 <= i < |ws| ==> r[i] == W(ws[i])
  {
    seq(|ws|, i requires 0 <= i < |ws| => W(ws[i]))
  }

  function Print(t: Tree): string {
    match t
    case TExec(ws) => Join(Words(ws))
    case TRedir(sub, f, op) => "(" + Print(sub) + ")" + OpText(op) + f
    case TPipe(l, r) => "(" + Print(l) + ")|(" + Print(r) + ")"
    case TList(l, r) => "(" + Print(l) + ");(" + Print(r) + ")"
    case TBack(sub) => "(" + Print(sub) + ")&"
  }

  // ------------------------------------------------------------- what a parse means

  function Text(s: string, a: Span): string { if a.lo <= a.hi <= |s| then s[a.lo..a.hi] else "" }

  function Texts(s: string, args: seq<Span>): seq<string> {
    seq(|args|, i requires 0 <= i < |args| => Text(s, args[i]))
  }

  /** The operator of a mode and file descriptor. */
  function OpOf(mode: nat, fd: nat): char {
    if mode == O_RDONLY && fd == 0 then '<' else if mode == O_WRONLY + O_CREATE + O_TRUNC && fd == 1 then '>' else '+'
  }

  function Meaning(s: string, c: Cmd): Tree {
    match c
    case Exec(args) => TExec(Texts(s, args))
    case Redir(c', file, mode, fd) => TRedir(Meaning(s, c'), Text(s, file), OpOf(mode, fd))
    case Pipe(l, r) => TPipe(Meaning(s, l), Meaning(s, r))
    case List(l, r) => TList(Meaning(s, l), Meaning(s, r))
    case Back(c') => TBack(Meaning(s, c'))
  }

  // ----------------------------------------------------------------- text in place

  /** w stands at position p of s. */
  ghost predicate At(s: string, p: nat, w: string) { p + |w| <= |s| && s[p..p + |w|] == w }

  lemma AtSplit(s: string, p: nat, a: string, b: string)
    requires At(s, p, a + b)
    ensures At(s, p, a) && At(s, p + |a|, b) && p + |a| + |b| <= |s|
  {
    assert s[p..p + |a| + |b|] == a + b;
    assert s[p..p + |a|] == s[p..p + |a| + |b|][..|a|];
    assert s[p + |a|..p + |a| + |b|] == s[p..p + |a| + |b|][|a|..];
  }

  lemma AtChar(s: string, p: nat, w: string, i: nat)
    requires At(s, p, w) && i < |w|
    ensures p + |w| <= |s| && s[p + i] == w[i]
  {
    assert s[p..p + |w|][i] == s[p + i];
  }

  /** The printed command ends here: at the end, or at a closing parenthesis. */
  predicate Stop(s: string, q: nat) { q == |s| || (q < |s| && s[q] == ')') }

  /** Nothing for parseredirs here. */
  predicate Plain(s: string, q: nat) { q == |s| || (q < |s| && !IsWs(s[q]) && s[q] != '<' && s[q] != '>') }

  lemma RedirsNone(c: Cmd, s: string, q: nat)
    requires Plain(s, q)
    ensures SkipWs(s, q) == q && Redirs(c, s, q) == Ok(c, q)
  {
  }

  ghost predicate NotWs(s: string, q: nat) { q == |s| || (q < |s| && !IsWs(s[q])) }

  lemma PeekIs(s: string, q: nat, toks: string)
    requires NotWs(s, q)
    ensures SkipWs(s, q) == q && (Peek(s, q, toks) <==> q < |s| && s[q] != '\0' && s[q] in toks)
  {
  }

  /** A symbol other than '>' is a token of its own. */
  lemma SymToken(s: string, q: nat)
    requires q < |s| && IsSym(s[q]) && s[q] != '>' && NotWs(s, q + 1)
    ensures SkipWs(s, q) == q && GetTok(s, q) == Tok(s[q], q, q + 1, q + 1)
  {
  }

  lemma {:induction false} SkipWordIs(s: string, p: nat, w: string)
    requires At(s, p, w) && (forall i :: 0 <= i < |w| ==> IsWordChar(w[i]))
    requires p + |w| == |s| || (p + |w| < |s| && (IsWs(s[p + |w|]) || IsSym(s[p + |w|])))
    ensures SkipWord(s, p) == p + |w|
    decreases |w|
  {
    if |w| > 0 {
      AtChar(s, p, w, 0);
      AtSplit(s, p, w[..1], w[1..]) by { assert w[..1] + w[1..] == w; }
      SkipWordIs(s, p + 1, w[1..]);
    }
  }

  /** A word followed by a separator is one token. */
  lemma WordToken(s: string, p: nat, w: string)
    requires At(s, p, w) && IsWord(w)
    requires p + |w| == |s| || (p + |w| < |s| && (IsWs(s[p + |w|]) || IsSym(s[p + |w|])))
    ensures SkipWs(s, p) == p && GetTok(s, p) == Tok('a', p, p + |w|, SkipWs(s, p + |w|))
    ensures Text(s, Span(p, p + |w|)) == w
  {
    AtChar(s, p, w, 0);
    SkipWordIs(s, p, w);
  }

  // ------------------------------------------------------------------ simple commands

  ghost predicate GoodItem(i: Item) {
    match i
    case W(w) => IsWord(w)
    case R(op, f) => IsWord(f) && (op == '<' || op == '>' || op == '+')
  }

  ghost predicate GoodItems(items: seq<Item>) { forall i :: 0 <= i < |items| ==> GoodItem(items[i]) }

  function CountWords(items: seq<Item>): nat {
    if |items| == 0 then 0 else (if items[0].W? then 1 else 0) + CountWords(items[1..])
  }

  function TWithArg(t: Tree, w: string): Tree {
    match t
    case TExec(ws) => TExec(ws + [w])
    case TRedir(sub, f, op) => TRedir(TWithArg(sub, w), f, op)
    case _ => t
  }

  /** The command that the items add up to: the words in order are the arguments, and the
      redirections in order are wrapped around it. */
  function Build(t: Tree, items: seq<Item>): Tree
    decreases |items|
  {
    if |items| == 0 then t
    else match items[0]
      case W(w) => Build(TWithArg(t, w), items[1..])
      case R(op, f) => Build(TRedir(t, f, op), items[1..])
  }

  lemma {:induction false} MeaningWithArg(s: string, c: Cmd, a: Span)
    ensures Meaning(s, WithArg(c, a)) == TWithArg(Meaning(s, c), Text(s, a))
  {
    match c
    case Exec(args) => TextsMore(s, args, a);
    case Redir(c', _, _, _) => MeaningWithArg(s, c', a);
    case _ =>
  }

  lemma TextsMore(s: string, args: seq<Span>, a: Span)
    ensures Texts(s, args + [a]) == Texts(s, args) + [Text(s, a)]
  {
  }

  lemma TxtStart(i: Item)
    requires GoodItem(i)
    ensures |Txt(i)| > 0 && !IsWs(Txt(i)[0]) && Txt(i)[0] != '\0' && Txt(i)[0] != '('
    ensures i.W? <==> IsWordChar(Txt(i)[0])
  {
  }

  lemma JoinStart(items: seq<Item>)
    requires |items| > 0 && GoodItem(items[0])
    ensures |Join(items)| > 0 && Join(items)[0] == Txt(items[0])[0]
  {
    TxtStart(items[0]);
  }

  /** Where the first of several items ends, and the next begins. */
  lemma ItemEnds(items: seq<Item>, s: string, p: nat) returns (next: nat)
    requires |items| > 0 && GoodItems(items) && At(s, p, Join(items)) && Stop(s, p + |Join(items)|)
    ensures At(s, p, Txt(items[0])) && next + |Join(items[1..])| == p + |Join(items)| && At(s, next, Join(items[1..]))
    ensures var q := p + |Txt(items[0])|;
            && q <= |s| && SkipWs(s, q) == next && NotWs(s, next)
            && (q == |s| || (q < |s| && (IsWs(s[q]) || IsSym(s[q]))))
  {
    hide At, SkipWs, Txt;
    var w, rest := Txt(items[0]), items[1..];
    next := p + |w|;
    if |items| > 1 {
      next := next + 1;
      assert Join(items) == w + (" " + Join(rest));
      AtSplit(s, p, w, " " + Join(rest));
      AtSplit(s, p + |w|, " ", Join(rest));
      AtChar(s, p + |w|, " ", 0);
      JoinStart(rest);
      TxtStart(rest[0]);
      AtChar(s, next, Join(rest), 0);
      OneSpace(s, p + |w|);
    } else {
      PeekIs(s, next, "");
      AtNothing(s, next);
    }
  }

  lemma OneSpace(s: string, q: nat)
    requires q < |s| && s[q] == ' ' && NotWs(s, q + 1)
    ensures SkipWs(s, q) == q + 1
  {
  }

  lemma AtNothing(s: string, q: nat)
    requires q <= |s|
    ensures At(s, q, "")
  {
  }

  lemma ArgsUnfold(ret: Cmd, argc: nat, s: string, p: nat, t: Tok, r: Res)
    requires p <= |s| && !Peek(s, p, "|)&;") && SkipWs(s, p) == p && GetTok(s, p) == t && t.kind == 'a'
    requires argc + 1 < MAXARGS && r.Ok? && Redirs(WithArg(ret, Span(t.q, t.eq)), s, t.next) == r
    ensures Args(ret, argc, s, p) == Args(r.c, argc + 1, s, r.p)
  {
    hide SkipWs, SkipWord, GetTok, Redirs, Peek, WithArg;
  }

  lemma ArgsEnd(ret: Cmd, argc: nat, s: string, p: nat)
    requires Stop(s, p)
    ensures Args(ret, argc, s, p) == Ok(ret, p)
  {
    PeekIs(s, p, "|)&;");
  }

  lemma OpToken(s: string, q: nat, op: char, f: string)
    requires (op == '<' || op == '>' || op == '+') && IsWord(f) && At(s, q, OpText(op)) && At(s, q + |OpText(op)|, f)
    ensures var x := q + |OpText(op)|; GetTok(s, q) == Tok(op, q, x, x) && NotWs(s, q) && (s[q] == '<' || s[q] == '>')
  {
    AtChar(s, q, OpText(op), 0);
    if op == '+' { AtChar(s, q, OpText(op), 1); }
    AtChar(s, q + |OpText(op)|, f, 0);
  }

  lemma RedirsUnfold(c: Cmd, s: string, q: nat, t: Tok, f: Tok)
    requires q <= |s| && SkipWs(s, q) == q && Peek(s, q, "<>") && GetTok(s, q) == t && GetTok(s, t.next) == f
    requires f.kind == 'a'
    ensures Redirs(c, s, q) == Redirs(Redirect(c, t.kind, Span(f.q, f.eq)), s, f.next)
  {
    hide SkipWs, SkipWord, GetTok, Peek;
  }

  /** parseredirs takes an operator and a file name. */
  lemma RedirStep(c: Cmd, s: string, q: nat, op: char, f: string)
    requires (op == '<' || op == '>' || op == '+') && IsWord(f) && At(s, q, OpText(op)) && At(s, q + |OpText(op)|, f)
    requires Stop(s, q + |OpText(op)| + |f|)
    ensures var x := q + |OpText(op)|;
            Redirs(c, s, q) == Ok(Redirect(c, op, Span(x, x + |f|)), x + |f|) && Text(s, Span(x, x + |f|)) == f
  {
    hide SkipWs, SkipWord, GetTok, Peek, At, Redirs, OpText;
    var x := q + |OpText(op)|;
    OpToken(s, q, op, f);
    WordToken(s, x, f);
    PeekIs(s, q, "<>");
    PeekIs(s, x + |f|, "<>");
    RedirsNone(Redirect(c, op, Span(x, x + |f|)), s, x + |f|);
    RedirsUnfold(c, s, q, GetTok(s, q), GetTok(s, x));
  }

  /** What parseexec still makes of the text at p: redirections, then arguments. */
  ghost predicate ItemsAre(ret: Cmd, argc: nat, s: string, p: nat, t: Tree, q: nat)
    requires p <= |s|
  {
    var r := Redirs(ret, s, p);
    r.Ok? && (var r' := Args(r.c, argc, s, r.p); r'.Ok? && r'.p == q && Meaning(s, r'.c) == t)
  }

  lemma WordItem(w: string, ret: Cmd, argc: nat, s: string, p: nat, next: nat, t: Tree, q: nat)
    requires At(s, p, w) && IsWord(w) && argc + 1 < MAXARGS
    requires p + |w| == |s| || (p + |w| < |s| && (IsWs(s[p + |w|]) || IsSym(s[p + |w|])))
    requires SkipWs(s, p + |w|) == next && ItemsAre(WithArg(ret, Span(p, p + |w|)), argc + 1, s, next, t, q)
    ensures ItemsAre(ret, argc, s, p, t, q)
  {
    hide SkipWs, SkipWord, GetTok, Redirs, Peek, At, Args, WithArg;
    WordToken(s, p, w);
    AtChar(s, p, w, 0);
    PeekIs(s, p, "|)&;");
    RedirsNone(ret, s, p);
    ArgsUnfold(ret, argc, s, p, GetTok(s, p), Redirs(WithArg(ret, Span(p, p + |w|)), s, next));
  }

  lemma {:induction false} ItemsOf(items: seq<Item>, ret: Cmd, argc: nat, s: string, p: nat)
    requires GoodItems(items) && argc + CountWords(items) < MAXARGS
    requires At(s, p, Join(items)) && Stop(s, p + |Join(items)|)
    ensures ItemsAre(ret, argc, s, p, Build(Meaning(s, ret), items), p + |Join(items)|)
    decreases |items|
  {
    hide Redirs, Args, At, SkipWs, GetTok, Join, ItemsAre, Meaning, WithArg, TWithArg, OpText, Text, Redirect;
    if |items| == 0 {
      JoinNone();
      ItemsNone(ret, argc, s, p);
    } else {
      var next := ItemEnds(items, s, p);
      match items[0]
      case W(w) =>
        var a := Span(p, p + |w|);
        WordToken(s, p, w);
        MeaningWithArg(s, ret, a);
        ItemsOf(items[1..], WithArg(ret, a), argc + 1, s, next);
        WordItem(w, ret, argc, s, p, next, Build(Meaning(s, ret), items), p + |Join(items)|);
      case R(op, f) =>
        var x := p + |OpText(op)|;
        var c' := Redirect(ret, op, Span(x, x + |f|));
        RedirItem(op, f, ret, s, p, next);
        ItemsOf(items[1..], c', argc, s, next);
        SameItems(ret, c', argc, s, p, next, Build(Meaning(s, ret), items), p + |Join(items)|);
    }
  }

  lemma ItemsNone(ret: Cmd, argc: nat, s: string, p: nat)
    requires Stop(s, p)
    ensures ItemsAre(ret, argc, s, p, Meaning(s, ret), p)
  {
    RedirsNone(ret, s, p);
    ArgsEnd(ret, argc, s, p);
  }

  lemma RedirItem(op: char, f: string, c: Cmd, s: string, p: nat, next: nat)
    requires (op == '<' || op == '>' || op == '+') && IsWord(f) && At(s, p, OpText(op) + f)
    requires var q := p + |OpText(op) + f|;
             && q <= |s| && SkipWs(s, q) == next
             && (q == |s| || (q < |s| && (IsWs(s[q]) || IsSym(s[q]))))
    ensures var x := p + |OpText(op)|; var c' := Redirect(c, op, Span(x, x + |f|));
            Redirs(c, s, p) == Redirs(c', s, next) && Meaning(s, c') == TRedir(Meaning(s, c), f, op)
  {
    hide SkipWs, SkipWord, GetTok, Peek, At, Redirs, OpText;
    AtSplit(s, p, OpText(op), f);
    var x := p + |OpText(op)|;
    OpToken(s, p, op, f);
    WordToken(s, x, f);
    PeekIs(s, p, "<>");
    RedirsUnfold(c, s, p, GetTok(s, p), GetTok(s, x));
  }

  lemma SameItems(c: Cmd, c': Cmd, argc: nat, s: string, p: nat, next: nat, t: Tree, q: nat)
    requires p <= |s| && next <= |s| && Redirs(c, s, p) == Redirs(c', s, next) && ItemsAre(c', argc, s, next, t, q)
    ensures ItemsAre(c, argc, s, p, t, q)
  {
  }

  lemma ExecOf(items: seq<Item>, s: string, p: nat)
    requires GoodItems(items) && CountWords(items) < MAXARGS && At(s, p, Join(items)) && Stop(s, p + |Join(items)|)
    ensures var r := ParseExec(s, p);
            r.Ok? && r.p == p + |Join(items)| && Meaning(s, r.c) == Build(TExec([]), items)
  {
    hide At, Redirs, Args, Join, SkipWs, Peek;
    if |items| > 0 {
      JoinStart(items);
      TxtStart(items[0]);
      AtChar(s, p, Join(items), 0);
    } else {
      JoinNone();
    }
    PeekIs(s, p, "(");
    ItemsOf(items, Exec([]), 0, s, p);
    assert Texts(s, []) == [];
  }

  lemma JoinNone()
    ensures Join([]) == ""
  {
  }

  lemma {:induction false} WordsBuild(pre: seq<string>, ws: seq<string>)
    ensures Build(TExec(pre), Words(ws)) == TExec(pre + ws) && CountWords(Words(ws)) == |ws|
    decreases |ws|
  {
    if |ws| > 0 {
      assert Words(ws)[1..] == Words(ws[1..]);
      WordsBuild(pre + [ws[0]], ws[1..]);
      assert pre + [ws[0]] + ws[1..] == pre + ws;
    } else {
      assert pre + ws == pre;
    }
  }

  // ----------------------------------------------------------------------- blocks

  /** What parseexec makes of a parenthesised command: the command, then redirections. */
  ghost predicate BlockIs(s: string, p: nat, t: Tree, q: nat)
    requires p <= |s| && q <= |s|
  {
    exists c :: Meaning(s, c) == t && ParseExec(s, p) == Redirs(c, s, q)
  }

  ghost predicate LineIs(s: string, p: nat, t: Tree, q: nat)
    requires p <= |s|
  {
    var r := ParseLine(s, p);
    r.Ok? && r.p == q && Meaning(s, r.c) == t
  }

  /** From the parse of the inside to the parse of the block. */
  lemma BlockFrom(t: Tree, s: string, p: nat, q: nat)
    requires p + 1 <= q < |s| && s[p] == '(' && s[q] == ')' && NotWs(s, p + 1) && NotWs(s, q + 1)
    requires LineIs(s, p + 1, t, q)
    ensures BlockIs(s, p, t, q + 1)
  {
    hide SkipWs, GetTok, Peek, Redirs, ParseLine, Args;
    var r := ParseLine(s, p + 1);
    SymToken(s, p);
    SymToken(s, q);
    PeekIs(s, p, "(");
    PeekIs(s, q, ")");
    assert ParseExec(s, p) == ParseBlock(s, p);
    assert ParseBlock(s, p) == Redirs(r.c, s, q + 1);
  }

  lemma PrintStart(t: Tree, s: string, p: nat)
    requires Good(t) && At(s, p, Print(t)) && Stop(s, p + |Print(t)|)
    ensures NotWs(s, p)
  {
    match t
    case TExec(ws) =>
      if |ws| > 0 {
        JoinStart(Words(ws));
        TxtStart(W(ws[0]));
        AtChar(s, p, Print(t), 0);
      }
    case _ => AtChar(s, p, Print(t), 0);
  }

  /** A command that ends the line or the block. */
  lemma LineEnds(s: string, p: nat, c: Cmd, q: nat)
    requires p <= |s| && Stop(s, q) && ParsePipe(s, p) == Ok(c, q)
    ensures ParseLine(s, p) == Ok(c, q)
  {
    hide SkipWs, GetTok, Peek, ParsePipe;
    PeekIs(s, q, "&");
    PeekIs(s, q, ";");
  }

  lemma PipeEnds(s: string, p: nat, c: Cmd, q: nat)
    requires p <= |s| && q <= |s| && NotWs(s, q) && (q < |s| ==> s[q] != '|') && ParseExec(s, p) == Ok(c, q)
    ensures ParsePipe(s, p) == Ok(c, q)
  {
    hide SkipWs, GetTok, Peek, ParseExec;
    PeekIs(s, q, "|");
  }

  lemma PipeJoin(s: string, p: nat, c: Cmd, q: nat, d: Cmd, z: nat)
    requires p <= |s| && q < |s| && s[q] == '|' && NotWs(s, q + 1) && ParseExec(s, p) == Ok(c, q)
    requires ParsePipe(s, q + 1) == Ok(d, z)
    ensures ParsePipe(s, p) == Ok(Pipe(c, d), z)
  {
    hide SkipWs, GetTok, Peek, ParseExec;
    SymToken(s, q);
    PeekIs(s, q, "|");
  }

  lemma ListJoin(s: string, p: nat, c: Cmd, q: nat, d: Cmd, z: nat)
    requires p <= |s| && q < |s| && s[q] == ';' && NotWs(s, q + 1) && ParsePipe(s, p) == Ok(c, q)
    requires ParseLine(s, q + 1) == Ok(d, z)
    ensures ParseLine(s, p) == Ok(List(c, d), z)
  {
    hide SkipWs, GetTok, Peek, ParsePipe;
    SymToken(s, q);
    PeekIs(s, q, ";");
    PeekIs(s, q, "&");
    assert Backs(c, s, q) == Ok(c, q);
  }

  lemma BackJoin(s: string, p: nat, c: Cmd, q: nat)
    requires p <= |s| && q < |s| && s[q] == '&' && Stop(s, q + 1) && ParsePipe(s, p) == Ok(c, q)
    ensures ParseLine(s, p) == Ok(Back(c), q + 1)
  {
    hide SkipWs, GetTok, Peek, ParsePipe;
    SymToken(s, q);
    PeekIs(s, q, "&");
    PeekIs(s, q + 1, "&");
    PeekIs(s, q + 1, ";");
    assert Backs(Back(c), s, q + 1) == Ok(Back(c), q + 1);
    assert Backs(c, s, q) == Ok(Back(c), q + 1);
  }

  /** A block with no redirection after it. */
  lemma BareBlock(t: Tree, s: string, p: nat, q: nat) returns (c: Cmd)
    requires p <= |s| && Plain(s, q) && BlockIs(s, p, t, q)
    ensures Meaning(s, c) == t && ParseExec(s, p) == Ok(c, q)
  {
    c :| Meaning(s, c) == t && ParseExec(s, p) == Redirs(c, s, q);
    RedirsNone(c, s, q);
  }

  // -------------------------------------------------------------------- the theorem

  /** The block "(" t ")" at p. */
  lemma {:induction false} BlockOf(t: Tree, s: string, p: nat)
    requires Good(t) && At(s, p, "(" + Print(t) + ")") && NotWs(s, p + |Print(t)| + 2)
    ensures BlockIs(s, p, t, p + |Print(t)| + 2)
    decreases t, 3
  {
    var q := p + 1 + |Print(t)|;
    AtSplit(s, p, "(" + Print(t), ")");
    AtSplit(s, p, "(", Print(t));
    AtChar(s, p, "(", 0);
    AtChar(s, q, ")", 0);
    PrintStart(t, s, p + 1);
    LineOf(t, s, p + 1);
    BlockFrom(t, s, p, q);
  }

  lemma {:induction false} LineOf(t: Tree, s: string, p: nat)
    requires Good(t) && At(s, p, Print(t)) && Stop(s, p + |Print(t)|)
    ensures LineIs(s, p, t, p + |Print(t)|)
    decreases t, 2
  {
    hide Print, At, LineIs;
    match t
    case TExec(ws) => PrintExec(ws); ExecLine(ws, s, p);
    case TRedir(sub, f, op) => RedirOf(sub, f, op, s, p);
    case TPipe(l, r) => PipeOf(l, r, s, p);
    case TList(l, r) => ListOf(l, r, s, p);
    case TBack(sub) => BackOf(sub, s, p);
  }

  lemma PrintExec(ws: seq<string>)
    ensures Print(TExec(ws)) == Join(Words(ws))
  {
  }

  lemma ExecLine(ws: seq<string>, s: string, p: nat)
    requires Good(TExec(ws)) && At(s, p, Join(Words(ws))) && Stop(s, p + |Join(Words(ws))|)
    ensures LineIs(s, p, TExec(ws), p + |Join(Words(ws))|)
  {
    hide LineIs, Join, At, Build, CountWords, Words;
    WordsBuild([], ws);
    assert [] + ws == ws;
    assert forall i :: 0 <= i < |ws| ==> GoodItem(Words(ws)[i]);
    SimpleLine(Words(ws), s, p);
  }

  lemma SimpleLine(items: seq<Item>, s: string, p: nat)
    requires GoodItems(items) && CountWords(items) < MAXARGS && At(s, p, Join(items)) && Stop(s, p + |Join(items)|)
    ensures LineIs(s, p, Build(TExec([]), items), p + |Join(items)|)
  {
    hide At, Join, ParseExec, ParsePipe, ParseLine;
    ExecOf(items, s, p);
    var r := ParseExec(s, p);
    PipeEnds(s, p, r.c, r.p);
    LineEnds(s, p, r.c, r.p);
  }

  /** A simple command parses to its words as arguments, wrapped in its redirections, in
      whatever order they were written. */
  lemma SimpleCommandParses(items: seq<Item>)
    requires GoodItems(items) && CountWords(items) < MAXARGS
    ensures var r := ParseCmd(Join(items)); r.Ok? && Meaning(Join(items), r.c) == Build(TExec([]), items)
  {
    hide Join, ParseLine, Meaning, At, SkipWs, GoodItems;
    var s := Join(items);
    AtWhole(s);
    SimpleLine(items, s, 0);
    PeekIs(s, |s|, "");
  }

  lemma {:induction false} RedirOf(sub: Tree, f: string, op: char, s: string, p: nat)
    requires Good(TRedir(sub, f, op)) && At(s, p, Print(TRedir(sub, f, op))) && Stop(s, p + |Print(TRedir(sub, f, op))|)
    ensures LineIs(s, p, TRedir(sub, f, op), p + |Print(TRedir(sub, f, op))|)
    decreases TRedir(sub, f, op), 1
  {
    hide At, SkipWs, GetTok, Peek, Redirs, ParseExec, ParsePipe, ParseLine, Text;
    var b := "(" + Print(sub) + ")";
    assert Print(TRedir(sub, f, op)) == b + (OpText(op) + f);
    AtSplit(s, p, b, OpText(op) + f);
    var q := p + |b|;
    AtSplit(s, q, OpText(op), f);
    AtChar(s, q, OpText(op), 0);
    BlockOf(sub, s, p);
    var c :| Meaning(s, c) == sub && ParseExec(s, p) == Redirs(c, s, q);
    RedirStep(c, s, q, op, f);
    var z := q + |OpText(op)| + |f|;
    var c' := Redirect(c, op, Span(q + |OpText(op)|, z));
    PipeEnds(s, p, c', z);
    LineEnds(s, p, c', z);
  }

  lemma PrintPair(l: Tree, r: Tree)
    ensures Print(TPipe(l, r)) == "(" + Print(l) + ")" + ("|" + ("(" + Print(r) + ")"))
    ensures Print(TList(l, r)) == "(" + Print(l) + ")" + (";" + ("(" + Print(r) + ")"))
  {
  }

  /** Two parenthesised texts with an operator between them. */
  lemma TwoBlocks(s: string, p: nat, b: string, ch: string, b': string)
    requires At(s, p, b + (ch + b')) && |ch| == 1 && b' != "" && b'[0] == '('
    ensures At(s, p, b) && At(s, p + |b| + 1, b') && p + |b| + 1 + |b'| <= |s|
    ensures s[p + |b|] == ch[0] && s[p + |b| + 1] == '('
  {
    AtSplit(s, p, b, ch + b');
    AtSplit(s, p + |b|, ch, b');
    AtChar(s, p + |b|, ch, 0);
    AtChar(s, p + |b| + 1, b', 0);
  }

  lemma {:induction false} PipeOf(l: Tree, r: Tree, s: string, p: nat)
    requires Good(l) && Good(r) && At(s, p, Print(TPipe(l, r))) && Stop(s, p + |Print(TPipe(l, r))|)
    ensures LineIs(s, p, TPipe(l, r), p + |Print(TPipe(l, r))|)
    decreases TPipe(l, r), 1
  {
    hide At, SkipWs, GetTok, Peek, Redirs, ParseExec, ParsePipe, ParseLine, Print, BlockIs;
    PrintPair(l, r);
    var b, b' := "(" + Print(l) + ")", "(" + Print(r) + ")";
    var q := p + |b|;
    TwoBlocks(s, p, b, "|", b');
    BlockOf(l, s, p);
    BlockOf(r, s, q + 1);
    var c := BareBlock(l, s, p, q);
    var z := q + 1 + |b'|;
    var d := BareBlock(r, s, q + 1, z);
    PipeEnds(s, q + 1, d, z);
    PipeJoin(s, p, c, q, d, z);
    LineEnds(s, p, Pipe(c, d), z);
  }

  lemma {:induction false} ListOf(l: Tree, r: Tree, s: string, p: nat)
    requires Good(l) && Good(r) && At(s, p, Print(TList(l, r))) && Stop(s, p + |Print(TList(l, r))|)
    ensures LineIs(s, p, TList(l, r), p + |Print(TList(l, r))|)
    decreases TList(l, r), 1
  {
    hide At, SkipWs, GetTok, Peek, Redirs, ParseExec, ParsePipe, ParseLine, Print, BlockIs;
    PrintPair(l, r);
    var b, b' := "(" + Print(l) + ")", "(" + Print(r) + ")";
    var q := p + |b|;
    TwoBlocks(s, p, b, ";", b');
    BlockOf(l, s, p);
    BlockOf(r, s, q + 1);
    var c := BareBlock(l, s, p, q);
    PipeEnds(s, p, c, q);
    var z := q + 1 + |b'|;
    var d := BareBlock(r, s, q + 1, z);
    PipeEnds(s, q + 1, d, z);
    LineEnds(s, q + 1, d, z);
    ListJoin(s, p, c, q, d, z);
  }

  lemma {:induction false} BackOf(sub: Tree, s: string, p: nat)
    requires Good(sub) && At(s, p, Print(TBack(sub))) && Stop(s, p + |Print(TBack(sub))|)
    ensures LineIs(s, p, TBack(sub), p + |Print(TBack(sub))|)
    decreases TBack(sub), 1
  {
    hide At, SkipWs, GetTok, Peek, Redirs, ParseExec, ParsePipe, ParseLine;
    var b := "(" + Print(sub) + ")";
    assert Print(TBack(sub)) == b + "&";
    AtSplit(s, p, b, "&");
    var q := p + |b|;
    AtChar(s, q, "&", 0);
    BlockOf(sub, s, p);
    var c := BareBlock(sub, s, p, q);
    PipeEnds(s, p, c, q);
    BackJoin(s, p, c, q);
  }

  lemma AtWhole(s: string)
    ensures At(s, 0, s)
  {
    assert s[0..|s|] == s;
  }

  /** Parsing undoes printing, for every command tree. */
  lemma PrintParses(t: Tree)
    requires Good(t)
    ensures var r := ParseCmd(Print(t)); r.Ok? && Meaning(Print(t), r.c) == t
  {
    hide Print, ParseLine, Good, Meaning, At, SkipWs;
    var s := Print(t);
    AtWhole(s);
    LineOf(t, s, 0);
    PeekIs(s, |s|, "");
  }
}
