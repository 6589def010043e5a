/** The shell's grammar, apart from its parser: the parser accepts exactly the lines of the
    grammar and builds the tree that the grammar gives them. */
module ShellGrammar {
  import opened Shell
  import opened ShellRoundTrip

  // ------------------------------------------------------------------------- tokens

  /** A token as gettoken classifies it, with its text; 'a' is a word, '+' is ">>". */
  datatype Token = T(kind: char, text: string)

  function Lex(s: string, p: nat): (r: seq<Token>)
    requires p <= |s|
    decreases |s| - p
  {
    var t := GetTok(s, p);
    if t.kind == '\0' then [] else [T(t.kind, s[t.q..t.eq])] + Lex(s, t.next)
  }

  /** What peek looks at: the first character of a symbol, or 'a' for a word. */
  function Lead(ts: seq<Token>): char { if ts == [] then '\0' else if ts[0].kind == '+' then '>' else ts[0].kind }

  predicate Symbols(toks: string) { forall c | c in toks :: IsSym(c) }

  lemma {:induction false} SkipTwice(s: string, p: nat)
    requires p <= |s|
    ensures SkipWs(s, SkipWs(s, p)) == SkipWs(s, p) && GetTok(s, SkipWs(s, p)) == GetTok(s, p)
    ensures Lex(s, SkipWs(s, p)) == Lex(s, p)
  {
  }

  lemma PeekLex(s: string, p: nat, toks: string)
    requires p <= |s| && Symbols(toks)
    ensures Peek(s, p, toks) <==> Lead(Lex(s, p)) in toks
  {
    var q := SkipWs(s, p);
    if q < |s| && s[q] != '\0' && s[q] != '>' { assert GetTok(s, p).kind == if IsSym(s[q]) then s[q] else 'a'; }
  }

  /** Taking the first token. */
  lemma LexHead(s: string, p: nat)
    requires p <= |s| && Lex(s, p) != []
    ensures var t := GetTok(s, SkipWs(s, p));
            && t == GetTok(s, p) && t.kind != '\0' && Lex(s, p)[0] == T(t.kind, s[t.q..t.eq])
            && Lex(s, t.next) == Lex(s, p)[1..] && Text(s, Span(t.q, t.eq)) == Lex(s, p)[0].text
  {
    SkipTwice(s, p);
  }

  // ------------------------------------------------------------------------ the grammar

  /** A line as it is written, with its parentheses. */
  datatype Source =
    | Simple(items: seq<Item>)
    | Block(line: Source, redirs: seq<Item>)
    | Pipeline(left: Source, right: Source)
    | Amp(sub: Source)
    | Semi(left: Source, right: Source)

  predicate Ops(items: seq<Item>) {
    forall i :: 0 <= i < |items| && items[i].R? ==> items[i].op == '<' || items[i].op == '>' || items[i].op == '+'
  }

  predicate AllRedirs(items: seq<Item>) { forall i :: 0 <= i < |items| ==> items[i].R? }

  /** exec: words and redirections, or "(" line ")" with redirections after it. */
  predicate IsExec(x: Source)
    decreases x, 0
  {
    match x
    case Simple(items) => Ops(items) && CountWords(items) < MAXARGS
    case Block(line, redirs) => IsLine(line) && Ops(redirs) && AllRedirs(redirs)
    case _ => false
  }

  /** pipe: exec, or exec "|" pipe. */
  predicate IsPipe(x: Source)
    decreases x, 1
  {
    match x
    case Pipeline(l, r) => IsExec(l) && IsPipe(r)
    case Simple(_) => IsExec(x)
    case Block(_, _) => IsExec(x)
    case _ => false
  }

  /** back: pipe, or back "&". */
  predicate IsBack(x: Source)
    decreases x, 2
  {
    match x
    case Amp(sub) => IsBack(sub)
    case Semi(_, _) => false
    case _ => IsPipe(x)
  }

  /** line: back, or back ";" line. */
  predicate IsLine(x: Source)
    decreases x, 3
  {
    match x
    case Semi(l, r) => IsBack(l) && IsLine(r)
    case _ => IsBack(x)
  }

  /** The tokens of a line. */
  function ItemTokens(i: Item): seq<Token> {
    if i.W? then [T('a', i.word)] else [T(i.op, OpText(i.op)), T('a', i.file)]
  }

  function Flat(items: seq<Item>): seq<Token> {
    if |items| == 0 then [] else ItemTokens(items[0]) + Flat(items[1..])
  }

  function Tokens(x: Source): seq<Token> {
    match x
    case Simple(items) => Flat(items)
    case Block(line, redirs) => [T('(', "(")] + Tokens(line) + [T(')', ")")] + Flat(redirs)
    case Pipeline(l, r) => Tokens(l) + [T('|', "|")] + Tokens(r)
    case Amp(sub) => Tokens(sub) + [T('&', "&")]
    case Semi(l, r) => Tokens(l) + [T(';', ";")] + Tokens(r)
  }

  /** The command that a line stands for. */
  function Value(x: Source): Tree {
    match x
    case Simple(items) => Build(TExec([]), items)
    case Block(line, redirs) => Build(Value(line), redirs)
    case Pipeline(l, r) => TPipe(Value(l), Value(r))
    case Amp(sub) => TBack(Value(sub))
    case Semi(l, r) => TList(Value(l), Value(r))
  }

  // ---------------------------------------------------- every line of the grammar parses

  /** Where a simple command ends. */
  predicate Stops(ts: seq<Token>) { ts == [] || Lead(ts) in "|)&;" }

  ghost predicate Parsed(r: Res, s: string, t: Tree, rest: seq<Token>) {
    r.Ok? && r.p <= |s| && Lex(s, r.p) == rest && Meaning(s, r.c) == t
  }

  lemma RedirsStop(c: Cmd, s: string, p: nat)
    requires p <= |s| && Lead(Lex(s, p)) !in "<>"
    ensures Redirs(c, s, p) == Ok(c, SkipWs(s, p)) && Lex(s, SkipWs(s, p)) == Lex(s, p)
  {
    PeekLex(s, p, "<>");
    SkipTwice(s, p);
  }

  /** One redirection taken by parseredirs. */
  lemma RedirTake(c: Cmd, s: string, p: nat) returns (c': Cmd, p': nat)
    requires p <= |s| && |Lex(s, p)| >= 2 && Lead(Lex(s, p)) in "<>" && Lex(s, p)[1].kind == 'a'
    ensures p < p' <= |s| && Redirs(c, s, p) == Redirs(c', s, p') && Lex(s, p') == Lex(s, p)[2..]
    ensures Meaning(s, c') == TRedir(Meaning(s, c), Lex(s, p)[1].text, Lex(s, p)[0].kind)
  {
    hide SkipWs, GetTok, Peek, Lex, SkipWord, Text;
    PeekLex(s, p, "<>");
    LexHead(s, p);
    var t := GetTok(s, p);
    LexHead(s, t.next);
    SkipTwice(s, t.next);
    var f := GetTok(s, t.next);
    c', p' := Redirect(c, t.kind, Span(f.q, f.eq)), f.next;
  }

  /** What parseexec makes of items at p: redirections first, then arguments. */
  ghost predicate ItemsParse(ret: Cmd, argc: nat, s: string, p: nat, t: Tree, rest: seq<Token>)
    requires p <= |s|
  {
    var r := Redirs(ret, s, p);
    r.Ok? && Parsed(Args(r.c, argc, s, r.p), s, t, rest)
  }

  lemma ArgTake(ret: Cmd, argc: nat, s: string, p: nat, t: Tree, rest: seq<Token>) returns (a: Span, p': nat)
    requires p <= |s| && Lex(s, p) != [] && Lex(s, p)[0].kind == 'a' && argc + 1 < MAXARGS
    ensures p < p' <= |s| && Lex(s, p') == Lex(s, p)[1..] && Text(s, a) == Lex(s, p)[0].text
    ensures ItemsParse(WithArg(ret, a), argc + 1, s, p', t, rest) ==> ItemsParse(ret, argc, s, p, t, rest)
  {
    hide SkipWs, GetTok, Peek, Lex, Redirs, WithArg, SkipWord, Text;
    RedirsStop(ret, s, p);
    var q := SkipWs(s, p);
    PeekLex(s, q, "|)&;");
    LexHead(s, q);
    SkipTwice(s, p);
    var k := GetTok(s, q);
    a, p' := Span(k.q, k.eq), k.next;
  }

  lemma ArgsStop(ret: Cmd, argc: nat, s: string, p: nat)
    requires p <= |s| && Stops(Lex(s, p))
    ensures ItemsParse(ret, argc, s, p, Meaning(s, ret), Lex(s, p))
  {
    RedirsStop(ret, s, p);
    var q := SkipWs(s, p);
    SkipTwice(s, p);
    PeekLex(s, q, "|)&;");
  }

  lemma {:induction false} ItemsParsed(items: seq<Item>, ret: Cmd, argc: nat, s: string, p: nat, rest: seq<Token>)
    requires p <= |s| && Lex(s, p) == Flat(items) + rest && Stops(rest) && Ops(items)
    requires argc + CountWords(items) < MAXARGS
    ensures ItemsParse(ret, argc, s, p, Build(Meaning(s, ret), items), rest)
    decreases |items|
  {
    hide SkipWs, GetTok, Peek, Lex, Redirs, Args, WithArg, TWithArg, SkipWord, Text, Meaning;
    if |items| == 0 {
      ArgsStop(ret, argc, s, p);
    } else {
      var t := Build(Meaning(s, ret), items);
      assert Lex(s, p) == ItemTokens(items[0]) + (Flat(items[1..]) + rest);
      match items[0]
      case W(w) =>
        var a, p' := ArgTake(ret, argc, s, p, t, rest);
        MeaningWithArg(s, ret, a);
        ItemsParsed(items[1..], WithArg(ret, a), argc + 1, s, p', rest);
      case R(op, f) =>
        var c', p' := RedirTake(ret, s, p);
        ItemsParsed(items[1..], c', argc, s, p', rest);
    }
  }

  lemma {:induction false} RedirsParsed(redirs: seq<Item>, c: Cmd, s: string, p: nat, rest: seq<Token>)
    requires p <= |s| && Lex(s, p) == Flat(redirs) + rest && Lead(rest) !in "<>" && Ops(redirs) && AllRedirs(redirs)
    ensures Parsed(Redirs(c, s, p), s, Build(Meaning(s, c), redirs), rest)
    decreases |redirs|
  {
    hide SkipWs, GetTok, Peek, Lex, Redirs, SkipWord, Meaning;
    if |redirs| == 0 {
      RedirsStop(c, s, p);
    } else {
      assert Lex(s, p) == ItemTokens(redirs[0]) + (Flat(redirs[1..]) + rest);
      var c', p' := RedirTake(c, s, p);
      RedirsParsed(redirs[1..], c', s, p', rest);
    }
  }

  lemma ItemsLead(items: seq<Item>, rest: seq<Token>)
    requires Ops(items) && Stops(rest)
    ensures Lead(Flat(items) + rest) != '('
  {
    if |items| > 0 { assert (Flat(items) + rest)[0] == ItemTokens(items[0])[0]; }
  }

  lemma SimpleParsed(items: seq<Item>, s: string, p: nat, rest: seq<Token>)
    requires p <= |s| && Lex(s, p) == Flat(items) + rest && Stops(rest) && Ops(items) && CountWords(items) < MAXARGS
    ensures Parsed(ParseExec(s, p), s, Build(TExec([]), items), rest)
  {
    hide SkipWs, GetTok, Peek, Lex, Redirs, Args, SkipWord;
    ItemsLead(items, rest);
    PeekLex(s, p, "(");
    SkipTwice(s, p);
    ItemsParsed(items, Exec([]), 0, s, SkipWs(s, p), rest);
    assert Texts(s, []) == [];
  }

  lemma {:induction false} ExecParsed(x: Source, s: string, p: nat, rest: seq<Token>)
    requires IsExec(x) && p <= |s| && Lex(s, p) == Tokens(x) + rest && Stops(rest)
    ensures Parsed(ParseExec(s, p), s, Value(x), rest)
    decreases x, 0
  {
    match x
    case Simple(items) => SimpleParsed(items, s, p, rest);
    case Block(line, redirs) => BlockParsed(line, redirs, s, p, rest);
  }

  lemma {:induction false} BlockParsed(line: Source, redirs: seq<Item>, s: string, p: nat, rest: seq<Token>)
    requires IsExec(Block(line, redirs)) && p <= |s| && Lex(s, p) == Tokens(Block(line, redirs)) + rest && Stops(rest)
    ensures Parsed(ParseExec(s, p), s, Build(Value(line), redirs), rest)
    decreases line, 5
  {
    hide SkipWs, GetTok, Peek, Lex, Redirs, Args, SkipWord, ParseLine, ParseExec;
    var close: seq<Token> := [T(')', ")")] + (Flat(redirs) + rest);
    assert Lex(s, p) == [T('(', "(")] + (Tokens(line) + close);
    PeekLex(s, p, "(");
    LexHead(s, p);
    var p1 := GetTok(s, SkipWs(s, p)).next;
    LineParsed(line, s, p1, close);
    var r := ParseLine(s, p1);
    PeekLex(s, r.p, ")");
    LexHead(s, r.p);
    BlockIsRedirs(s, p, r);
    RedirsParsed(redirs, r.c, s, GetTok(s, SkipWs(s, r.p)).next, rest);
  }

  lemma BlockIsRedirs(s: string, p: nat, r: Res)
    requires p <= |s| && Peek(s, p, "(") && ParseLine(s, GetTok(s, SkipWs(s, p)).next) == r
    requires r.Ok? && Peek(s, r.p, ")")
    ensures ParseExec(s, p) == Redirs(r.c, s, GetTok(s, SkipWs(s, r.p)).next)
  {
    SkipTwice(s, p);
    hide SkipWs, GetTok, Redirs, ParseLine;
  }

  lemma {:induction false} PipeParsed(x: Source, s: string, p: nat, rest: seq<Token>)
    requires IsPipe(x) && p <= |s| && Lex(s, p) == Tokens(x) + rest && Stops(rest) && Lead(rest) != '|'
    ensures Parsed(ParsePipe(s, p), s, Value(x), rest)
    decreases x, 1
  {
    hide SkipWs, GetTok, Peek, Lex, ParseExec, SkipWord;
    var l := if x.Pipeline? then x.left else x;
    var rest' := if x.Pipeline? then [T('|', "|")] + (Tokens(x.right) + rest) else rest;
    assert Lex(s, p) == Tokens(l) + rest';
    ExecParsed(l, s, p, rest');
    var r := ParseExec(s, p);
    PeekLex(s, r.p, "|");
    SkipTwice(s, r.p);
    if x.Pipeline? {
      LexHead(s, r.p);
      PipeParsed(x.right, s, GetTok(s, SkipWs(s, r.p)).next, rest);
    }
  }

  /** parseline up to its ";": a pipe, and "&" as often as it comes. */
  ghost predicate BackParse(s: string, p: nat, t: Tree, q: nat, c: Cmd)
    requires p <= |s|
  {
    && q <= |s| && Meaning(s, c) == t
    && var r := ParsePipe(s, p); r.Ok? && Backs(r.c, s, r.p) == Backs(c, s, q)
  }

  lemma {:induction false} BackParsed(x: Source, s: string, p: nat, rest: seq<Token>) returns (c: Cmd, q: nat)
    requires IsBack(x) && p <= |s| && Lex(s, p) == Tokens(x) + rest && Stops(rest) && Lead(rest) != '|'
    ensures BackParse(s, p, Value(x), q, c) && Lex(s, q) == rest
    decreases x, 2
  {
    hide SkipWs, GetTok, Peek, Lex, ParsePipe, SkipWord;
    if x.Amp? {
      var rest' := [T('&', "&")] + rest;
      assert Lex(s, p) == Tokens(x.sub) + rest';
      var c', q' := BackParsed(x.sub, s, p, rest');
      PeekLex(s, q', "&");
      LexHead(s, q');
      c, q := Back(c'), GetTok(s, SkipWs(s, q')).next;
    } else {
      PipeParsed(x, s, p, rest);
      c, q := ParsePipe(s, p).c, ParsePipe(s, p).p;
    }
  }

  lemma {:induction false} LineParsed(x: Source, s: string, p: nat, rest: seq<Token>)
    requires IsLine(x) && p <= |s| && Lex(s, p) == Tokens(x) + rest && (rest == [] || Lead(rest) == ')')
    ensures Parsed(ParseLine(s, p), s, Value(x), rest)
    decreases x, 3
  {
    hide SkipWs, GetTok, Peek, Lex, ParsePipe, SkipWord;
    var l := if x.Semi? then x.left else x;
    var rest' := if x.Semi? then [T(';', ";")] + (Tokens(x.right) + rest) else rest;
    assert Lex(s, p) == Tokens(l) + rest';
    var c, q := BackParsed(l, s, p, rest');
    PeekLex(s, q, "&");
    SkipTwice(s, q);
    assert Backs(c, s, q) == Ok(c, SkipWs(s, q));
    PeekLex(s, SkipWs(s, q), ";");
    SkipTwice(s, SkipWs(s, q));
    if x.Semi? {
      LexHead(s, SkipWs(s, q));
      LineParsed(x.right, s, GetTok(s, SkipWs(s, q)).next, rest);
    }
  }

  /** Every line of the grammar parses, to the command it stands for, whatever white space
      is between its tokens. */
  lemma GrammarParses(x: Source, s: string)
    requires IsLine(x) && Lex(s, 0) == Tokens(x) && '\0' !in s
    ensures var r := ParseCmd(s); r.Ok? && Meaning(s, r.c) == Value(x)
  {
    hide SkipWord, ParseLine, Meaning;
    assert Lex(s, 0) == Tokens(x) + [];
    LineParsed(x, s, 0, []);
    var r := ParseLine(s, 0);
    assert GetTok(s, r.p).kind == '\0';
  }

  // ------------------------------------------------ and nothing but the grammar parses

  lemma {:induction false} ItemsAppend(a: seq<Item>, b: seq<Item>, t: Tree)
    ensures Flat(a + b) == Flat(a) + Flat(b) && CountWords(a + b) == CountWords(a) + CountWords(b)
    ensures Build(t, a + b) == Build(Build(t, a), b)
    decreases |a|
  {
    if |a| == 0 {
      assert a + b == b;
    } else {
      assert (a + b)[1..] == a[1..] + b;
      ItemsAppend(a[1..], b, match a[0] case W(w) => TWithArg(t, w) case R(op, f) => TRedir(t, f, op));
    }
  }

  /** From p to q the line has the tokens ts. */
  ghost predicate Spans(s: string, p: nat, ts: seq<Token>, q: nat) {
    p <= |s| && q <= |s| && Lex(s, p) == ts + Lex(s, q)
  }

  lemma SpansThen(s: string, p: nat, a: seq<Token>, q: nat, b: seq<Token>, r: nat)
    requires Spans(s, p, a, q) && Spans(s, q, b, r)
    ensures Spans(s, p, a + b, r)
  {
    hide Lex;
    assert a + b + Lex(s, r) == a + (b + Lex(s, r));
  }

  lemma SpansNone(s: string, p: nat)
    requires p <= |s|
    ensures Spans(s, p, [], SkipWs(s, p)) && Spans(s, p, [], p)
  {
    SkipTwice(s, p);
  }

  /** White space before a token does not matter. */
  lemma SpansSkip(s: string, p: nat, ts: seq<Token>, q: nat)
    requires p <= |s| && q <= |s|
    ensures Spans(s, SkipWs(s, p), ts, q) <==> Spans(s, p, ts, q)
    ensures Spans(s, p, ts, SkipWs(s, q)) <==> Spans(s, p, ts, q)
  {
    hide Lex, SkipWs;
    SkipTwice(s, p);
    SkipTwice(s, q);
  }

  lemma {:induction false} NoWords(items: seq<Item>)
    requires AllRedirs(items)
    ensures CountWords(items) == 0
  {
    if |items| > 0 { NoWords(items[1..]); }
  }

  lemma SymbolText(s: string, p: nat)
    requires p <= |s| && Lex(s, p) != [] && Lex(s, p)[0].kind != 'a'
    ensures Lex(s, p)[0] == T(Lex(s, p)[0].kind, if Lex(s, p)[0].kind == '+' then ">>" else [Lex(s, p)[0].kind])
  {
    var q := SkipWs(s, p);
    assert s[q..q + 1] == [s[q]];
    if q + 1 < |s| { assert s[q..q + 2] == [s[q], s[q + 1]]; }
  }

  lemma RedirSymbol(s: string, p: nat)
    requires p <= |s| && Peek(s, p, "<>")
    ensures Lex(s, p) != [] && Lex(s, p)[0] == T(Lex(s, p)[0].kind, OpText(Lex(s, p)[0].kind))
    ensures var op := Lex(s, p)[0].kind; op == '<' || op == '>' || op == '+'
  {
    PeekLex(s, p, "<>");
    SymbolText(s, p);
  }

  lemma {:induction false} RedirsGrammar(c: Cmd, s: string, p: nat) returns (redirs: seq<Item>)
    requires p <= |s| && Redirs(c, s, p).Ok?
    ensures Ops(redirs) && AllRedirs(redirs)
    ensures Spans(s, p, Flat(redirs), Redirs(c, s, p).p)
    ensures Meaning(s, Redirs(c, s, p).c) == Build(Meaning(s, c), redirs)
    decreases |s| - p
  {
    hide SkipWs, GetTok, Peek, Lex, SkipWord, Text, Meaning, Spans, Flat, Build;
    redirs := [];
    SpansNone(s, p);
    BuildNone(Meaning(s, c));
    if Peek(s, p, "<>") {
      RedirSymbol(s, p);
      LexHead(s, p);
      var k := GetTok(s, p);
      SecondToken(s, k.next);
      var c', p' := RedirTake(c, s, p);
      var more := RedirsGrammar(c', s, p');
      var first := R(k.kind, Lex(s, p)[1].text);
      redirs := RedirFirst(first, more, Meaning(s, c));
      SpansTwo(s, p, p');
      SpansThen(s, p, ItemTokens(first), p', Flat(more), Redirs(c, s, p).p);
    }
  }

  lemma RedirFirst(i: Item, rest: seq<Item>, t: Tree) returns (items: seq<Item>)
    requires i.R? && Ops([i]) && Ops(rest) && AllRedirs(rest)
    ensures Ops(items) && AllRedirs(items) && Flat(items) == ItemTokens(i) + Flat(rest)
    ensures Build(t, items) == Build(TRedir(t, i.file, i.op), rest)
  {
    items := [i] + rest;
    assert items[1..] == rest;
    assert Ops([i]) && [i][0] == i;
  }

  lemma SpansTwo(s: string, p: nat, q: nat)
    requires p <= |s| && q <= |s| && |Lex(s, p)| >= 2 && Lex(s, q) == Lex(s, p)[2..]
    ensures Spans(s, p, [Lex(s, p)[0], Lex(s, p)[1]], q)
  {
    hide Lex;
  }

  lemma SecondToken(s: string, p: nat)
    requires p <= |s| && GetTok(s, p).kind == 'a'
    ensures Lex(s, p) != [] && Lex(s, p)[0].kind == 'a'
  {
  }

  lemma {:induction false} ArgsGrammar(ret: Cmd, argc: nat, s: string, p: nat) returns (items: seq<Item>)
    requires p <= |s| && Args(ret, argc, s, p).Ok? && argc < MAXARGS
    ensures Ops(items) && argc + CountWords(items) < MAXARGS
    ensures Spans(s, p, Flat(items), Args(ret, argc, s, p).p)
    ensures Meaning(s, Args(ret, argc, s, p).c) == Build(Meaning(s, ret), items)
    decreases |s| - p
  {
    hide SkipWs, GetTok, Peek, Lex, SkipWord, Text, Meaning, Redirs, WithArg, TWithArg, Build, Spans, Flat;
    items := [];
    BuildNone(Meaning(s, ret));
    SkipTwice(s, p);
    SpansNone(s, p);
    var k := GetTok(s, p);
    if !Peek(s, p, "|)&;") {
      if k.kind == '\0' {
        NoToken(s, p);
      } else {
        var a := WordTake(s, p);
        var c := WithArg(ret, a);
        MeaningWithArg(s, ret, a);
        var redirs := RedirsGrammar(c, s, k.next);
        var r := Redirs(c, s, k.next);
        var more := ArgsGrammar(r.c, argc + 1, s, r.p);
        var rest := redirs + more;
        ItemsAppend(redirs, more, Meaning(s, c));
        NoWords(redirs);
        SpansThen(s, k.next, Flat(redirs), r.p, Flat(more), Args(ret, argc, s, p).p);
        items := WordFirst(W(Text(s, a)), rest, Meaning(s, ret));
        SpansThen(s, p, [T('a', Text(s, a))], k.next, Flat(rest), Args(ret, argc, s, p).p);
      }
    }
  }

  lemma WordTake(s: string, p: nat) returns (a: Span)
    requires p <= |s| && GetTok(s, p).kind == 'a'
    ensures a == Span(GetTok(s, p).q, GetTok(s, p).eq)
    ensures Spans(s, p, [T('a', Text(s, a))], GetTok(s, p).next)
  {
    a := Span(GetTok(s, p).q, GetTok(s, p).eq);
  }

  lemma WordFirst(i: Item, rest: seq<Item>, t: Tree) returns (items: seq<Item>)
    requires i.W? && Ops(rest)
    ensures Ops(items) && CountWords(items) == 1 + CountWords(rest) && Flat(items) == [T('a', i.word)] + Flat(rest)
    ensures Build(t, items) == Build(TWithArg(t, i.word), rest)
  {
    items := [i] + rest;
    assert items[1..] == rest;
  }

  lemma NoToken(s: string, p: nat)
    requires p <= |s| && GetTok(s, p).kind == '\0'
    ensures Spans(s, p, [], GetTok(s, p).next)
  {
  }

  lemma BuildNone(t: Tree)
    ensures Build(t, []) == t && Flat([]) == []
  {
  }

  lemma {:induction false} ExecGrammar(s: string, p: nat) returns (x: Source)
    requires p <= |s| && ParseExec(s, p).Ok?
    ensures IsExec(x) && Value(x) == Meaning(s, ParseExec(s, p).c)
    ensures Spans(s, p, Tokens(x), ParseExec(s, p).p)
    decreases |s| - p, 1
  {
    hide SkipWs, GetTok, Peek, Lex, SkipWord, Redirs, Args, ParseBlock, Build, Meaning, Spans;
    var q := SkipWs(s, p);
    if Peek(s, p, "(") {
      x := BlockGrammar(s, q);
    } else {
      var redirs := RedirsGrammar(Exec([]), s, q);
      var r := Redirs(Exec([]), s, q);
      var items := ArgsGrammar(r.c, 0, s, r.p);
      EmptyExec(s);
      ItemsAppend(redirs, items, TExec([]));
      NoWords(redirs);
      SpansThen(s, q, Flat(redirs), r.p, Flat(items), ParseExec(s, p).p);
      x := Simple(redirs + items);
    }
    SpansSkip(s, p, Tokens(x), ParseExec(s, p).p);
  }

  lemma EmptyExec(s: string)
    ensures Meaning(s, Exec([])) == TExec([])
  {
    assert Texts(s, []) == [];
  }

  lemma SymbolTake(s: string, p: nat, c: char) returns (next: nat)
    requires p <= |s| && IsSym(c) && c != '>' && c != '<' && Peek(s, p, [c])
    ensures next == GetTok(s, SkipWs(s, p)).next && p < next && Spans(s, p, [T(c, [c])], next)
  {
    next := GetTok(s, SkipWs(s, p)).next;
    PeekLex(s, p, [c]);
    LexHead(s, p);
    SymbolText(s, p);
  }

  lemma {:induction false} BlockGrammar(s: string, p: nat) returns (x: Source)
    requires p <= |s| && ParseBlock(s, p).Ok?
    ensures IsExec(x) && Value(x) == Meaning(s, ParseBlock(s, p).c)
    ensures Spans(s, p, Tokens(x), ParseBlock(s, p).p)
    decreases |s| - p, 0
  {
    hide SkipWs, GetTok, Peek, Lex, SkipWord, Redirs, Args, ParseLine, Build, Meaning, Spans;
    var p1 := SymbolTake(s, p, '(');
    var line := LineGrammar(s, p1);
    var r := ParseLine(s, p1);
    var p2 := SymbolTake(s, r.p, ')');
    var redirs := RedirsGrammar(r.c, s, p2);
    x := Block(line, redirs);
    SpansThen(s, p, [T('(', "(")], p1, Tokens(line), r.p);
    SpansThen(s, p, [T('(', "(")] + Tokens(line), r.p, [T(')', ")")], p2);
    SpansThen(s, p, [T('(', "(")] + Tokens(line) + [T(')', ")")], p2, Flat(redirs), ParseBlock(s, p).p);
  }

  lemma {:induction false} PipeGrammar(s: string, p: nat) returns (x: Source)
    requires p <= |s| && ParsePipe(s, p).Ok?
    ensures IsPipe(x) && Value(x) == Meaning(s, ParsePipe(s, p).c)
    ensures Spans(s, p, Tokens(x), ParsePipe(s, p).p)
    decreases |s| - p, 2
  {
    hide SkipWs, GetTok, Peek, Lex, SkipWord, ParseExec, Spans;
    var l := ExecGrammar(s, p);
    var r := ParseExec(s, p);
    x := l;
    SpansSkip(s, p, Tokens(l), r.p);
    if Peek(s, r.p, "|") {
      var p1 := SymbolTake(s, r.p, '|');
      var right := PipeGrammar(s, p1);
      x := Pipeline(l, right);
      SpansThen(s, p, Tokens(l), r.p, [T('|', "|")], p1);
      SpansThen(s, p, Tokens(l) + [T('|', "|")], p1, Tokens(right), ParsePipe(s, p).p);
    }
  }

  lemma {:induction false} BacksGrammar(x0: Source, c: Cmd, s: string, p0: nat, p: nat) returns (x: Source)
    requires p <= |s| && IsBack(x0) && Value(x0) == Meaning(s, c) && Spans(s, p0, Tokens(x0), p)
    ensures IsBack(x) && Value(x) == Meaning(s, Backs(c, s, p).c)
    ensures Spans(s, p0, Tokens(x), Backs(c, s, p).p)
    decreases |s| - p
  {
    hide SkipWs, GetTok, Peek, Lex, SkipWord, Spans;
    x := x0;
    if Peek(s, p, "&") {
      var p1 := SymbolTake(s, p, '&');
      SpansThen(s, p0, Tokens(x0), p, [T('&', "&")], p1);
      x := BacksGrammar(Amp(x0), Back(c), s, p0, p1);
    } else {
      assert p0 <= |s| by { InLine(s, p0, Tokens(x0), p); }
      SpansSkip(s, p0, Tokens(x0), p);
    }
  }

  lemma InLine(s: string, p: nat, ts: seq<Token>, q: nat)
    requires Spans(s, p, ts, q)
    ensures p <= |s| && q <= |s|
  {
  }

  lemma {:induction false} LineGrammar(s: string, p: nat) returns (x: Source)
    requires p <= |s| && ParseLine(s, p).Ok?
    ensures IsLine(x) && Value(x) == Meaning(s, ParseLine(s, p).c)
    ensures Spans(s, p, Tokens(x), ParseLine(s, p).p)
    decreases |s| - p, 3
  {
    hide SkipWs, GetTok, Peek, Lex, SkipWord, ParsePipe, Backs, Spans;
    var pipe := PipeGrammar(s, p);
    var r := ParsePipe(s, p);
    var l := BacksGrammar(pipe, r.c, s, p, r.p);
    var b := Backs(r.c, s, r.p);
    x := l;
    SpansSkip(s, p, Tokens(l), b.p);
    if Peek(s, b.p, ";") {
      var p1 := SymbolTake(s, b.p, ';');
      var right := LineGrammar(s, p1);
      x := Semi(l, right);
      SpansThen(s, p, Tokens(l), b.p, [T(';', ";")], p1);
      SpansThen(s, p, Tokens(l) + [T(';', ";")], p1, Tokens(right), ParseLine(s, p).p);
    }
  }

  /** The parser accepts exactly the lines of the grammar, and builds the command that the
      grammar gives: for every text of a C string. */
  lemma ParsesIff(s: string, t: Tree)
    requires '\0' !in s
    ensures (ParseCmd(s).Ok? && Meaning(s, ParseCmd(s).c) == t)
            <==> exists x :: IsLine(x) && Lex(s, 0) == Tokens(x) && Value(x) == t
  {
    hide Lex, ParseLine, Meaning, SkipWord;
    if ParseCmd(s).Ok? && Meaning(s, ParseCmd(s).c) == t {
      var x := LineGrammar(s, 0);
      AtEnd(s, ParseLine(s, 0).p);
      assert IsLine(x) && Lex(s, 0) == Tokens(x) && Value(x) == t;
    }
    forall x | IsLine(x) && Lex(s, 0) == Tokens(x) && Value(x) == t
      ensures ParseCmd(s).Ok? && Meaning(s, ParseCmd(s).c) == t
    {
      GrammarParses(x, s);
    }
  }

  lemma AtEnd(s: string, p: nat)
    requires p <= |s| && SkipWs(s, p) == |s|
    ensures Lex(s, p) == []
  {
  }

  // --------------------------------------------- parentheses only where they are needed

  /** What a chain of redirections is around, and the chain, innermost first. */
  function Core(t: Tree): Tree { if t.TRedir? then Core(t.sub) else t }

  function Outer(t: Tree): seq<Item> { if t.TRedir? then Outer(t.sub) + [R(t.op, t.file)] else [] }

  lemma {:induction false} CoreOuter(t: Tree)
    requires Good(t)
    ensures Build(Core(t), Outer(t)) == t && !Core(t).TRedir? && Good(Core(t)) && Ops(Outer(t)) && AllRedirs(Outer(t))
  {
    if t.TRedir? {
      CoreOuter(t.sub);
      ItemsAppend(Outer(t.sub), [R(t.op, t.file)], Core(t));
    }
  }

  lemma CoreSmaller(t: Tree)
    requires t.TRedir?
    ensures Core(t) < t
  {
  }

  /** The steps line, back, pipe, exec, and by a block line again, to the level of t. */
  function Distance(t: Tree, level: nat): nat
    requires level < 4
  {
    ((if t.TList? then 0 else if t.TBack? then 1 else if t.TPipe? then 2 else 3) + 4 - level) % 4
  }

  /** A line for t, with a block exactly where t does not fit the grammar's level. */
  function ExecSource(t: Tree): Source
    decreases t, Distance(t, 3)
  {
    match t
    case TExec(ws) => Simple(Words(ws))
    case TRedir(_, _, _) =>
      CoreSmaller(t);
      if Core(t).TExec? then Simple(Words(Core(t).words) + Outer(t)) else Block(LineSource(Core(t)), Outer(t))
    case _ => Block(LineSource(t), [])
  }

  function PipeSource(t: Tree): Source
    decreases t, Distance(t, 2)
  {
    if t.TPipe? then Pipeline(ExecSource(t.left), PipeSource(t.right)) else ExecSource(t)
  }

  function BackSource(t: Tree): Source
    decreases t, Distance(t, 1)
  {
    if t.TBack? then Amp(BackSource(t.sub)) else PipeSource(t)
  }

  function LineSource(t: Tree): Source
    decreases t, Distance(t, 0)
  {
    if t.TList? then Semi(BackSource(t.left), LineSource(t.right)) else BackSource(t)
  }

  lemma {:induction false} ExecSourceIs(t: Tree)
    requires Good(t)
    ensures IsExec(ExecSource(t)) && Value(ExecSource(t)) == t
    decreases t, Distance(t, 3)
  {
    match t
    case TExec(ws) => SimpleSource(ws, [], t);
    case TRedir(_, _, _) =>
      CoreOuter(t);
      CoreSmaller(t);
      if Core(t).TExec? { SimpleSource(Core(t).words, Outer(t), t); } else { LineSourceIs(Core(t)); }
    case _ => LineSourceIs(t); BuildNone(t);
  }

  lemma SimpleSource(ws: seq<string>, redirs: seq<Item>, t: Tree)
    requires |ws| < MAXARGS && Ops(redirs) && AllRedirs(redirs) && t == Build(TExec(ws), redirs)
    ensures IsExec(Simple(Words(ws) + redirs)) && Build(TExec([]), Words(ws) + redirs) == t
    ensures redirs == [] ==> Words(ws) + redirs == Words(ws)
  {
    WordsBuild([], ws);
    assert [] + ws == ws;
    ItemsAppend(Words(ws), redirs, TExec([]));
    NoWords(redirs);
  }

  lemma {:induction false} PipeSourceIs(t: Tree)
    requires Good(t)
    ensures IsPipe(PipeSource(t)) && Value(PipeSource(t)) == t
    decreases t, Distance(t, 2)
  {
    if t.TPipe? { ExecSourceIs(t.left); PipeSourceIs(t.right); } else { ExecSourceIs(t); }
  }

  lemma {:induction false} BackSourceIs(t: Tree)
    requires Good(t)
    ensures IsBack(BackSource(t)) && Value(BackSource(t)) == t
    decreases t, Distance(t, 1)
  {
    if t.TBack? { BackSourceIs(t.sub); } else { PipeSourceIs(t); }
  }

  lemma {:induction false} LineSourceIs(t: Tree)
    requires Good(t)
    ensures IsLine(LineSource(t)) && Value(LineSource(t)) == t
    decreases t, Distance(t, 0)
  {
    if t.TList? { BackSourceIs(t.left); LineSourceIs(t.right); } else { BackSourceIs(t); }
  }

  /** How many pairs of parentheses a line has. */
  function Parens(x: Source): nat {
    match x
    case Simple(_) => 0
    case Block(line, _) => 1 + Parens(line)
    case Pipeline(l, r) => Parens(l) + Parens(r)
    case Amp(sub) => Parens(sub)
    case Semi(l, r) => Parens(l) + Parens(r)
  }

  lemma LevelParens(t: Tree)
    ensures Parens(LineSource(t)) <= Parens(BackSource(t)) <= Parens(PipeSource(t)) <= Parens(ExecSource(t))
    ensures Parens(LineSource(Core(t))) <= Parens(LineSource(t))
  {
  }

  lemma {:induction false} BuildCore(t: Tree, redirs: seq<Item>)
    requires AllRedirs(redirs)
    ensures Core(Build(t, redirs)) == Core(t) && (redirs != [] ==> Build(t, redirs).TRedir?)
    decreases |redirs|
  {
    if redirs != [] { BuildCore(TRedir(t, redirs[0].file, redirs[0].op), redirs[1..]); }
  }

  lemma {:induction false} SimpleIsExec(t: Tree, items: seq<Item>)
    requires Core(t).TExec?
    ensures Core(Build(t, items)).TExec?
    decreases |items|
  {
    if items != [] {
      match items[0]
      case W(w) => ArgKeepsCore(t, w); SimpleIsExec(TWithArg(t, w), items[1..]);
      case R(op, f) => SimpleIsExec(TRedir(t, f, op), items[1..]);
    }
  }

  lemma {:induction false} ArgKeepsCore(t: Tree, w: string)
    requires Core(t).TExec?
    ensures Core(TWithArg(t, w)).TExec?
  {
    if t.TRedir? { ArgKeepsCore(t.sub, w); }
  }

  /** No line for the same command has fewer parentheses. */
  lemma {:induction false} FewestParens(x: Source)
    ensures IsExec(x) ==> Parens(ExecSource(Value(x))) <= Parens(x)
    ensures IsPipe(x) ==> Parens(PipeSource(Value(x))) <= Parens(x)
    ensures IsBack(x) ==> Parens(BackSource(Value(x))) <= Parens(x)
    ensures IsLine(x) ==> Parens(LineSource(Value(x))) <= Parens(x)
  {
    LevelParens(Value(x));
    match x
    case Simple(items) => SimpleIsExec(TExec([]), items);
    case Block(line, redirs) =>
      if IsLine(line) && AllRedirs(redirs) {
        FewestParens(line);
        LevelParens(Value(line));
        BuildCore(Value(line), redirs);
      }
    case Pipeline(l, r) => FewestParens(l); FewestParens(r);
    case Amp(sub) => FewestParens(sub);
    case Semi(l, r) => FewestParens(l); FewestParens(r);
  }

  /** Pipelines of simple commands, with "&" after them and ";" between them. */
  predicate FlatPipe(t: Tree) { if t.TPipe? then Core(t.left).TExec? && FlatPipe(t.right) else Core(t).TExec? }

  predicate FlatBack(t: Tree) { if t.TBack? then FlatBack(t.sub) else FlatPipe(t) }

  predicate FlatLine(t: Tree) { if t.TList? then FlatBack(t.left) && FlatLine(t.right) else FlatBack(t) }

  lemma ExecParens(t: Tree)
    ensures Parens(ExecSource(t)) == 0 <==> Core(t).TExec?
  {
  }

  lemma {:induction false} PipeParens(t: Tree)
    ensures Parens(PipeSource(t)) == 0 <==> FlatPipe(t)
  {
    if t.TPipe? { ExecParens(t.left); PipeParens(t.right); } else { ExecParens(t); }
  }

  lemma {:induction false} BackParens(t: Tree)
    ensures Parens(BackSource(t)) == 0 <==> FlatBack(t)
  {
    if t.TBack? { BackParens(t.sub); } else { PipeParens(t); }
  }

  /** Exactly these are printed without any parentheses. */
  lemma {:induction false} FlatNeedsNoParens(t: Tree)
    ensures Parens(LineSource(t)) == 0 <==> FlatLine(t)
  {
    if t.TList? { BackParens(t.left); FlatNeedsNoParens(t.right); } else { BackParens(t); }
  }

  // ------------------------------------------------------------------ the round trip

  ghost predicate ValidToken(k: Token) {
    if k.kind == 'a' then IsWord(k.text)
    else (IsSym(k.kind) && k.text == [k.kind]) || k == T('+', ">>")
  }

  predicate IsOp(k: Token) { k.kind == '<' || k.kind == '>' || k.kind == '+' }

  /** Tokens of the right form, each redirection operator before a word. */
  ghost predicate ValidTokens(ts: seq<Token>) {
    ts != [] ==>
      ValidToken(ts[0]) && (IsOp(ts[0]) ==> |ts| > 1 && ts[1].kind == 'a') && ValidTokens(ts[1..])
  }

  ghost predicate IsGap(g: string) { forall i :: 0 <= i < |g| ==> IsWs(g[i]) }

  /** White space before, between and after the tokens; some between two words. */
  ghost predicate Fits(ts: seq<Token>, gaps: seq<string>) {
    && |gaps| == |ts| + 1 && IsGap(gaps[0])
    && (ts != [] ==> Fits(ts[1..], gaps[1..]))
    && (|ts| > 1 && ts[0].kind == 'a' && ts[1].kind == 'a' ==> gaps[1] != "")
  }

  function Spread(ts: seq<Token>, gaps: seq<string>): string
    requires |gaps| == |ts| + 1
  {
    gaps[0] + if ts == [] then "" else ts[0].text + Spread(ts[1..], gaps[1..])
  }

  lemma {:induction false} SkipGap(s: string, p: nat, q: nat)
    requires p <= q <= |s| && IsGap(s[p..q]) && NotWs(s, q)
    ensures SkipWs(s, p) == q
    decreases q - p
  {
    if p < q {
      assert s[p..q][0] == s[p] && s[p + 1..q] == s[p..q][1..];
      SkipGap(s, p + 1, q);
    }
  }

  /** A suffix of s in two parts. */
  lemma SuffixSplit(s: string, p: nat, a: string, b: string)
    requires p <= |s| && s[p..] == a + b
    ensures p + |a| <= |s| && s[p + |a|..] == b && At(s, p, a)
  {
    assert |s[p..]| == |a| + |b|;
    assert s[p + |a|..] == s[p..][|a|..];
    assert s[p..p + |a|] == s[p..][..|a|];
  }

  /** The token at q, when it stands there and nothing runs into it. */
  lemma TokenThere(s: string, p: nat, q: nat, k: Token)
    requires p <= q <= |s| && SkipWs(s, p) == q && At(s, q, k.text) && ValidToken(k) && Clear(s, q + |k.text|, k)
    ensures GetTok(s, p) == Tok(k.kind, q, q + |k.text|, SkipWs(s, q + |k.text|))
  {
    hide SkipWs;
    AtChar(s, q, k.text, 0);
    if k.kind == 'a' {
      SkipWordIs(s, q, k.text);
    } else if k.kind == '+' {
      AtChar(s, q, k.text, 1);
    }
    hide SkipWord, At;
  }

  ghost predicate Clear(s: string, e: nat, k: Token) {
    e < |s| ==> (k.kind == 'a' ==> IsWs(s[e]) || IsSym(s[e])) && (k.kind == '>' ==> s[e] != '>')
  }

  lemma LexFirst(s: string, p: nat, q: nat, k: Token)
    requires p <= q <= |s| && SkipWs(s, p) == q && At(s, q, k.text) && ValidToken(k) && Clear(s, q + |k.text|, k)
    ensures Lex(s, p) == [k] + Lex(s, q + |k.text|)
  {
    hide SkipWs, GetTok, ValidToken, Clear;
    TokenThere(s, p, q, k);
    assert s[q..q + |k.text|] == k.text && k.kind != '\0' by { GapNotWs(k); }
    hide At;
    SkipTwice(s, q + |k.text|);
  }

  lemma GapNotWs(k: Token)
    requires ValidToken(k)
    ensures |k.text| > 0 && !IsWs(k.text[0]) && k.kind != '\0'
    ensures (k.kind != 'a' ==> IsSym(k.text[0])) && (k.kind == 'a' ==> k.text[0] != '>')
  {
  }

  /** What follows the first token does not run into it. */
  lemma FirstEnds(ts: seq<Token>, gaps: seq<string>, s: string, e: nat)
    requires ts != [] && ValidTokens(ts) && Fits(ts, gaps) && Remains(s, e, Spread(ts[1..], gaps[1..]))
    ensures Clear(s, e, ts[0])
  {
    if e < |s| {
      assert s[e..][0] == s[e];
      if gaps[1] != "" {
        assert s[e] == gaps[1][0];
      } else {
        assert |ts| > 1;
        GapNotWs(ts[1]);
        assert s[e] == ts[1].text[0];
      }
    }
  }

  lemma SpreadNone(gaps: seq<string>, s: string, p: nat)
    requires Fits([], gaps) && Remains(s, p, Spread([], gaps))
    ensures p <= |s| && Lex(s, p) == []
  {
    assert s[p..|s|] == gaps[0];
    SkipGap(s, p, |s|);
    AtEnd(s, p);
  }

  /** The text from p on. */
  ghost predicate Remains(s: string, p: nat, w: string) { p <= |s| && s[p..] == w }

  /** A gap, a token and the rest, in place. */
  lemma GapThenToken(s: string, p: nat, g: string, k: Token, more: string)
    requires Remains(s, p, g + (k.text + more)) && IsGap(g) && ValidToken(k)
    ensures var q := p + |g|; Remains(s, q + |k.text|, more) && p <= q <= |s| && At(s, q, k.text) && SkipWs(s, p) == q
    ensures p + |g| + |k.text| <= |s|
  {
    hide SkipWs, ValidToken;
    SuffixSplit(s, p, g, k.text + more);
    SuffixSplit(s, p + |g|, k.text, more);
    GapNotWs(k);
    AtChar(s, p + |g|, k.text, 0);
    SkipGap(s, p, p + |g|);
  }

  lemma SpreadUnfold(ts: seq<Token>, gaps: seq<string>)
    requires ts != [] && ValidTokens(ts) && Fits(ts, gaps)
    ensures IsGap(gaps[0]) && ValidToken(ts[0]) && ValidTokens(ts[1..]) && Fits(ts[1..], gaps[1..])
    ensures Spread(ts, gaps) == gaps[0] + (ts[0].text + Spread(ts[1..], gaps[1..]))
  {
  }

  lemma SpreadFirst(ts: seq<Token>, gaps: seq<string>, s: string, p: nat) returns (e: nat)
    requires ts != [] && ValidTokens(ts) && Fits(ts, gaps) && Remains(s, p, Spread(ts, gaps))
    ensures Remains(s, e, Spread(ts[1..], gaps[1..])) && p <= |s| && e <= |s| && Lex(s, p) == [ts[0]] + Lex(s, e)
  {
    hide Lex, Spread, ValidTokens, Remains, At, Clear, IsGap, ValidToken, SkipWs;
    var q := p + |gaps[0]|;
    e := q + |ts[0].text|;
    SpreadUnfold(ts, gaps);
    GapThenToken(s, p, gaps[0], ts[0], Spread(ts[1..], gaps[1..]));
    FirstEnds(ts, gaps, s, e);
    LexFirst(s, p, q, ts[0]);
  }

  lemma {:induction false} SpreadLexes(ts: seq<Token>, gaps: seq<string>, s: string, p: nat)
    requires ValidTokens(ts) && Fits(ts, gaps) && Remains(s, p, Spread(ts, gaps))
    ensures p <= |s| && Lex(s, p) == ts
    decreases |ts|
  {
    hide Lex, Spread, Remains;
    if ts == [] {
      SpreadNone(gaps, s, p);
    } else {
      var e := SpreadFirst(ts, gaps, s, p);
      SpreadLexes(ts[1..], gaps[1..], s, e);
    }
  }

  ghost predicate Clean(x: Source) {
    match x
    case Simple(items) => GoodItems(items)
    case Block(line, redirs) => Clean(line) && GoodItems(redirs)
    case Pipeline(l, r) => Clean(l) && Clean(r)
    case Amp(sub) => Clean(sub)
    case Semi(l, r) => Clean(l) && Clean(r)
  }

  lemma {:induction false} ValidBoth(a: seq<Token>, b: seq<Token>)
    requires ValidTokens(a) && ValidTokens(b)
    ensures ValidTokens(a + b)
    decreases |a|
  {
    if a == [] {
      assert a + b == b;
    } else {
      assert (a + b)[1..] == a[1..] + b;
      ValidBoth(a[1..], b);
    }
  }

  lemma {:induction false} FlatValid(items: seq<Item>)
    requires GoodItems(items)
    ensures ValidTokens(Flat(items))
  {
    if |items| > 0 {
      FlatValid(items[1..]);
      ValidBoth(ItemTokens(items[0]), Flat(items[1..]));
    }
  }

  lemma {:induction false} TokensValid(x: Source)
    requires Clean(x)
    ensures ValidTokens(Tokens(x))
  {
    hide ValidTokens;
    SymbolsValid();
    match x
    case Simple(items) => FlatValid(items);
    case Block(line, redirs) =>
      TokensValid(line);
      FlatValid(redirs);
      ValidBoth([T('(', "(")], Tokens(line));
      ValidBoth([T('(', "(")] + Tokens(line), [T(')', ")")]);
      ValidBoth([T('(', "(")] + Tokens(line) + [T(')', ")")], Flat(redirs));
    case Pipeline(l, r) =>
      TokensValid(l); TokensValid(r);
      ValidBoth(Tokens(l), [T('|', "|")]);
      ValidBoth(Tokens(l) + [T('|', "|")], Tokens(r));
    case Amp(sub) => TokensValid(sub); ValidBoth(Tokens(sub), [T('&', "&")]);
    case Semi(l, r) =>
      TokensValid(l); TokensValid(r);
      ValidBoth(Tokens(l), [T(';', ";")]);
      ValidBoth(Tokens(l) + [T(';', ";")], Tokens(r));
  }

  lemma SymbolsValid()
    ensures ValidTokens([T('(', "(")]) && ValidTokens([T(')', ")")]) && ValidTokens([T('|', "|")])
    ensures ValidTokens([T('&', "&")]) && ValidTokens([T(';', ";")])
  {
  }

  lemma {:induction false} OuterClean(t: Tree)
    requires Good(t)
    ensures GoodItems(Outer(t)) && Good(Core(t))
  {
    if t.TRedir? { OuterClean(t.sub); }
  }

  lemma {:induction false} SourceClean(t: Tree, level: nat)
    requires Good(t) && level < 4
    ensures level == 0 ==> Clean(LineSource(t))
    ensures level == 1 ==> Clean(BackSource(t))
    ensures level == 2 ==> Clean(PipeSource(t))
    ensures level == 3 ==> Clean(ExecSource(t))
    decreases t, Distance(t, level)
  {
    if Distance(t, level) > 0 {
      SourceClean(t, (level + 1) % 4);
    } else {
      match t
      case TExec(ws) =>
      case TRedir(_, _, _) => OuterClean(t); CoreSmaller(t); SourceClean(Core(t), 0);
      case TPipe(l, r) => SourceClean(l, 3); SourceClean(r, 2);
      case TBack(sub) => SourceClean(sub, 1);
      case TList(l, r) => SourceClean(l, 1); SourceClean(r, 0);
    }
  }

  lemma {:induction false} SpreadNoNul(ts: seq<Token>, gaps: seq<string>)
    requires ValidTokens(ts) && Fits(ts, gaps)
    ensures '\0' !in Spread(ts, gaps)
    decreases |ts|
  {
    if ts != [] { SpreadNoNul(ts[1..], gaps[1..]); }
  }

  /** Every command tree, printed with parentheses only where the grammar needs them and
      with any white space between the tokens, parses back to itself. */
  lemma LeastParensParses(t: Tree, gaps: seq<string>)
    requires Good(t) && Fits(Tokens(LineSource(t)), gaps)
    ensures var s := Spread(Tokens(LineSource(t)), gaps); ParseCmd(s).Ok? && Meaning(s, ParseCmd(s).c) == t
  {
    hide Lex, ParseCmd, Meaning, Spread;
    var x := LineSource(t);
    LineSourceIs(t);
    SourceClean(t, 0);
    TokensValid(x);
    var s := Spread(Tokens(x), gaps);
    SpreadNoNul(Tokens(x), gaps);
    SpreadLexes(Tokens(x), gaps, s, 0);
    GrammarParses(x, s);
  }
}
