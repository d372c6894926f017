/** sh.c's parser over one buffer: a shared cursor, tokens as slices, NULs written in place at the end. */
module ShellCode {
  import opened ShellSpec

  const NUL: char := 0 as char

  /** argv[i] and eargv[i], or file and efile: the token from `q` up to `e`. */
  datatype Slice = Slice(q: nat, e: nat)

  datatype File = File(name: Slice, way: Way)

  datatype Node =
    | ExecNode(argv: seq<Slice>)
    | RedirNode(cmd: Node, file: File)
    | PipeNode(left: Node, right: Node)
    | ListNode(first: Node, next: Node)
    | BackNode(job: Node)

  datatype Parsed = Parsed(node: Node) | Panic(error: Error)

  // ----- slices of a text -----

  /** A whole word of the text: plain characters up to something that is not. */
  predicate SliceOk(s: string, sl: Slice) {
    && sl.q < sl.e <= |s| && (forall i :: sl.q <= i < sl.e ==> Plain(s[i]))
    && (sl.e < |s| ==> !Plain(s[sl.e]))
  }

  predicate NodeOk(s: string, n: Node) {
    match n
    case ExecNode(argv) => forall i :: 0 <= i < |argv| ==> SliceOk(s, argv[i])
    case RedirNode(c, f) => NodeOk(s, c) && SliceOk(s, f.name)
    case PipeNode(l, r) => NodeOk(s, l) && NodeOk(s, r)
    case ListNode(l, r) => NodeOk(s, l) && NodeOk(s, r)
    case BackNode(c) => NodeOk(s, c)
  }

  function WordOf(s: string, sl: Slice): string
    requires SliceOk(s, sl)
  {
    s[sl.q..sl.e]
  }

  function WordsOf(s: string, argv: seq<Slice>): (r: seq<string>)
    requires forall i :: 0 <= i < |argv| ==> SliceOk(s, argv[i])
    ensures |r| == |argv| && forall i :: 0 <= i < |argv| ==> r[i] == WordOf(s, argv[i])
  {
    seq(|argv|, i requires 0 <= i < |argv| => WordOf(s, argv[i]))
  }

  function FileOf(s: string, f: File): Redirection
    requires SliceOk(s, f.name)
  {
    Redirection(WordOf(s, f.name), f.way)
  }

  /** The command a node stands for. */
  function CmdOf(s: string, n: Node): Cmd
    requires NodeOk(s, n)
  {
    match n
    case ExecNode(argv) => Exec(WordsOf(s, argv))
    case RedirNode(c, f) => Redir(CmdOf(s, c), WordOf(s, f.name), f.way)
    case PipeNode(l, r) => Pipe(CmdOf(s, l), CmdOf(s, r))
    case ListNode(l, r) => List(CmdOf(s, l), CmdOf(s, r))
    case BackNode(c) => Back(CmdOf(s, c))
  }

  predicate FilesOk(s: string, fs: seq<File>) { forall i :: 0 <= i < |fs| ==> SliceOk(s, fs[i].name) }

  function FilesOf(s: string, fs: seq<File>): (r: seq<Redirection>)
    requires FilesOk(s, fs)
    ensures |r| == |fs| && forall i :: 0 <= i < |fs| ==> r[i] == FileOf(s, fs[i])
  {
    seq(|fs|, i requires 0 <= i < |fs| => FileOf(s, fs[i]))
  }

  /** redircmd, once for each file. */
  function WrapNode(n: Node, fs: seq<File>): Node
    decreases |fs|
  {
    if fs == [] then n else WrapNode(RedirNode(n, fs[0]), fs[1..])
  }

  lemma {:induction false} WrapNodeIs(s: string, n: Node, fs: seq<File>)
    requires NodeOk(s, n) && FilesOk(s, fs)
    ensures NodeOk(s, WrapNode(n, fs)) && CmdOf(s, WrapNode(n, fs)) == Wrap(CmdOf(s, n), FilesOf(s, fs))
    decreases |fs|
  {
    if fs != [] {
      WrapNodeIs(s, RedirNode(n, fs[0]), fs[1..]);
      assert FilesOf(s, fs)[1..] == FilesOf(s, fs[1..]);
    }
  }

  /** A method's result agrees with the specification's, on the text and on what is left of it. */
  ghost predicate Agrees(s: string, spec: Result, r: Parsed, rest: string) {
    match spec
    case Ok(c, v) => r.Parsed? && NodeOk(s, r.node) && CmdOf(s, r.node) == c && rest == v
    case Err(e) => r == Panic(e)
  }

  predicate TokenIs(s: string, t: Token, tok: char, sl: Slice) {
    match t
    case End => tok == NUL
    case Sym(c) => tok == c
    case Append => tok == '+'
    case Word(w) => tok == 'a' && SliceOk(s, sl) && WordOf(s, sl) == w
  }

  class Parser {
    const buf: array<char>
    const es: nat
    var ps: nat

    /** A C string in the buffer, NUL at `es`, and a cursor in it. */
    ghost predicate Valid()
      reads this, buf
    {
      buf.Length == es + 1 && ps <= es && buf[es] == NUL && NUL !in buf[..es]
    }

    ghost function Text(): string
      requires Valid()
      reads this, buf
    {
      buf[..es]
    }

    ghost function Rest(): string
      requires Valid()
      reads this, buf
    {
      buf[ps..es]
    }

    constructor (b: array<char>, n: nat)
      requires b.Length == n + 1 && b[n] == NUL && NUL !in b[..n]
      ensures Valid() && buf == b && es == n && ps == 0
    {
      buf, es, ps := b, n, 0;
    }

    /** The index after the blanks at `from`. */
    method PastBlanks(from: nat) returns (i: nat)
      requires Valid() && from <= es
      ensures from <= i <= es && buf[i..es] == Skip(buf[from..es])
    {
      i := from;
      while i < es && Blank(buf[i])
        invariant from <= i <= es && Skip(buf[from..es]) == Skip(buf[i..es])
      {
        assert buf[i..es][1..] == buf[i + 1..es];
        i := i + 1;
      }
    }

    method WordEnd(from: nat) returns (i: nat)
      requires Valid() && from <= es
      ensures from <= i <= es && i == from + WordLen(buf[from..es])
    {
      i := from;
      while i < es && !Blank(buf[i]) && !Symbol(buf[i])
        invariant from <= i <= es && WordLen(buf[from..es]) == (i - from) + WordLen(buf[i..es])
      {
        assert buf[i..es][1..] == buf[i + 1..es];
        i := i + 1;
      }
    }

    /** gettoken: the kind of token and its slice; the cursor moves past it and the blanks after it. */
    method Lex() returns (tok: char, sl: Slice)
      requires Valid()
      modifies this`ps
      ensures Valid() && Rest() == GetToken(old(Rest())).rest
      ensures TokenIs(Text(), GetToken(old(Rest())).tok, tok, sl)
    {
      hide Skip, WordLen, GetToken, SliceOk;
      var q := PastBlanks(ps);
      ghost var v := buf[q..es];
      TokenCases(Rest(), v);
      var s := q;
      tok := buf[s];
      if s == es {
      } else if Symbol(tok) && tok != '>' {
        s := s + 1;
        assert v[1..] == buf[s..es];
      } else if tok == '>' {
        s := s + 1;
        assert v[1..] == buf[s..es];
        if buf[s] == '>' {
          tok := '+';
          s := s + 1;
          assert v[2..] == buf[s..es];
        }
      } else {
        tok := 'a';
        s := WordEnd(q);
        WholeWord(buf[..es], q, s, v);
        assert v[WordLen(v)..] == buf[s..es];
      }
      sl := Slice(q, s);
      ps := PastBlanks(s);
    }

    /** peek: the cursor moves past blanks; is the next character one of `toks`? */
    method Next(toks: string) returns (b: bool)
      requires Valid()
      modifies this`ps
      ensures Valid() && Rest() == Skip(old(Rest())) && (b <==> Peek(old(Rest()), toks))
    {
      ps := PastBlanks(ps);
      return ps < es && buf[ps] in toks;
    }

    /** One redirection: its operator and its file. */
    method OneRedir() returns (ok: bool, f: File)
      requires Valid() && Peek(Rest(), "<>")
      modifies this`ps
      ensures Valid() && (ok <==> RedirFile(old(Rest())).tok.Word?)
      ensures ok ==>
        SliceOk(Text(), f.name) && FileOf(Text(), f) == FirstRedir(old(Rest())) && Rest() == RedirFile(old(Rest())).rest
    {
      hide Skip, WordLen;
      var tok, op := Lex();
      var kind, name := Lex();
      return kind == 'a', File(name, if tok == '<' then In else Out);
    }

    /** parseredirs: the files of the redirections at the cursor, first to last. */
    method ParseRedirs() returns (ok: bool, fs: seq<File>)
      requires Valid()
      modifies this`ps
      ensures Valid() && (ok <==> Redirs(old(Rest())).Ok?)
      ensures !ok ==> Redirs(old(Rest())) == Redirected.Err(MissingFile)
      ensures ok ==> FilesOk(Text(), fs) && Redirs(old(Rest())) == Redirected.Ok(FilesOf(Text(), fs), Rest())
    {
      hide Redirs, Skip, Peek, GetToken, Continues, RedirFile, FirstRedir;
      fs := [];
      ghost var u := Rest();
      ContinuesStart(u);
      while true
        invariant Valid() && FilesOk(Text(), fs)
        invariant Continues(Redirs(u), FilesOf(Text(), fs), Redirs(Rest()))
        decreases |Rest()|
      {
        ghost var v := Rest();
        var more := Next("<>");
        SkipRedirs(v);
        if !more {
          ContinuesEnd(Redirs(u), FilesOf(Text(), fs), v);
          return true, fs;
        }
        ghost var w := Rest();
        var got, f := OneRedir();
        RedirsOpens(w);
        if !got {
          ContinuesFails(Redirs(u), FilesOf(Text(), fs), w);
          return false, [];
        }
        ContinuesNext(Redirs(u), FilesOf(Text(), fs), w);
        FilesMore(Text(), fs, f);
        fs := fs + [f];
      }
    }

    /** parseexec's words, each with the redirections after it. */
    method ParseWords(fs0: seq<File>) returns (r: Parsed)
      requires Valid() && FilesOk(Text(), fs0)
      modifies this`ps
      ensures Valid() && Agrees(Text(), ExecLoop([], FilesOf(Text(), fs0), old(Rest())), r, Rest())
    {
      hide ExecLoop, Skip, Peek, GetToken, Redirs, WrapNode, CmdOf;
      ghost var spec := ExecLoop([], FilesOf(Text(), fs0), Rest());
      var argv: seq<Slice> := [];
      var fs := fs0;
      while true
        invariant Valid() && ArgsOk(Text(), argv) && FilesOk(Text(), fs) && |argv| < MAXARGS
        invariant spec == ExecLoop(WordsOf(Text(), argv), FilesOf(Text(), fs), Rest())
        decreases |Rest()|
      {
        ghost var u := Rest();
        var stop := Next("|)&;");
        ghost var v := Rest();
        LoopOpens(WordsOf(Text(), argv), FilesOf(Text(), fs), u);
        if stop {
          WrapExec(Text(), argv, fs);
          return Parsed(WrapNode(ExecNode(argv), fs));
        }
        var tok, sl := Lex();
        TokenKinds(Text(), GetToken(v).tok, tok, sl, v);
        if tok == NUL {
          WrapExec(Text(), argv, fs);
          return Parsed(WrapNode(ExecNode(argv), fs));
        }
        if tok != 'a' {
          return Panic(Syntax);
        }
        WordsMore(Text(), argv, sl);
        argv := argv + [sl];
        if |argv| >= MAXARGS {
          return Panic(TooManyArgs);
        }
        var ok, more := ParseRedirs();
        if !ok {
          return Panic(MissingFile);
        }
        AllFiles(Text(), fs, more);
        fs := fs + more;
      }
    }

    method ParseExec() returns (r: Parsed)
      requires Valid()
      modifies this`ps
      ensures Valid() && Agrees(Text(), ShellSpec.ParseExec(old(Rest())), r, Rest())
      decreases |Rest()|, 1
    {
      hide Skip, Peek, GetToken, Redirs, ExecLoop, ShellSpec.ParseBlock, CmdOf;
      ghost var u := Rest();
      var block := Next("(");
      ExecOpens(u);
      if block {
        r := ParseBlock();
        return;
      }
      var ok, fs := ParseRedirs();
      if !ok {
        return Panic(MissingFile);
      }
      r := ParseWords(fs);
    }

    method ParseBlock() returns (r: Parsed)
      requires Valid() && Peek(Rest(), "(")
      modifies this`ps
      ensures Valid() && Agrees(Text(), ShellSpec.ParseBlock(old(Rest())), r, Rest())
      decreases |Rest()|, 0
    {
      hide Skip, Peek, GetToken, Redirs, ShellSpec.ParseLine, CmdOf, WrapNode;
      ghost var u := Rest();
      BlockOpens(u);
      var open, o := Lex();
      r := ParseLine();
      if r.Panic? {
        return;
      }
      ghost var v := Rest();
      var close := Next(")");
      LexAfterSkip(v);
      if !close {
        return Panic(MissingParen);
      }
      var end, e := Lex();
      var ok, fs := ParseRedirs();
      if !ok {
        return Panic(MissingFile);
      }
      WrapNodeIs(Text(), r.node, fs);
      return Parsed(WrapNode(r.node, fs));
    }

    method ParsePipe() returns (r: Parsed)
      requires Valid()
      modifies this`ps
      ensures Valid() && Agrees(Text(), ShellSpec.ParsePipe(old(Rest())), r, Rest())
      decreases |Rest()|, 2
    {
      hide Skip, Peek, GetToken, ShellSpec.ParseExec;
      ghost var u := Rest();
      r := ParseExec();
      if r.Panic? {
        return;
      }
      ghost var v := Rest();
      var more := Next("|");
      LexAfterSkip(v);
      if more {
        TokenAhead(v, "|");
        var bar, b := Lex();
        var d := ParsePipe();
        return if d.Panic? then d else Parsed(PipeNode(r.node, d.node));
      }
    }

    /** parseline's loop over `&`. */
    method ParseBacks(n: Node) returns (r: Node)
      requires Valid() && NodeOk(Text(), n)
      modifies this`ps
      ensures Valid() && NodeOk(Text(), r)
      ensures Backs(CmdOf(Text(), n), old(Rest())) == Result.Ok(CmdOf(Text(), r), Rest())
    {
      hide Skip, Peek, GetToken, Backs;
      r := n;
      var more := true;
      while more
        invariant Valid() && NodeOk(Text(), r)
        invariant more ==> Backs(CmdOf(Text(), r), Rest()) == Backs(CmdOf(Text(), n), old(Rest()))
        invariant !more ==> Backs(CmdOf(Text(), n), old(Rest())) == Result.Ok(CmdOf(Text(), r), Rest())
        decreases more, |Rest()|
      {
        ghost var v := Rest();
        more := Next("&");
        LexAfterSkip(v);
        BacksOpens(CmdOf(Text(), r), v);
        if more {
          var amp, a := Lex();
          r := BackNode(r);
        }
      }
    }

    method ParseLine() returns (r: Parsed)
      requires Valid()
      modifies this`ps
      ensures Valid() && Agrees(Text(), ShellSpec.ParseLine(old(Rest())), r, Rest())
      decreases |Rest()|, 3
    {
      hide Skip, Peek, GetToken, ShellSpec.ParsePipe, Backs, CmdOf;
      ghost var u := Rest();
      r := ParsePipe();
      if r.Panic? {
        return;
      }
      BacksSkipped(CmdOf(Text(), r.node), Rest());
      var n := ParseBacks(r.node);
      ghost var v := Rest();
      var list := Next(";");
      LexAfterSkip(v);
      r := Parsed(n);
      if list {
        TokenAhead(v, ";");
        var semi, c := Lex();
        var d := ParseLine();
        if d.Parsed? {
          ListIs(Text(), n, d.node);
        }
        return if d.Panic? then d else Parsed(ListNode(n, d.node));
      }
    }

    /** parsecmd up to nulterminate. */
    method ParseCmd() returns (r: Parsed)
      requires Valid() && ps == 0
      modifies this`ps
      ensures Valid()
      ensures r.Parsed? <==> ShellSpec.ParseCmd(Text()).Ok?
      ensures r.Parsed? ==> NodeOk(Text(), r.node) && CmdOf(Text(), r.node) == ShellSpec.ParseCmd(Text()).cmd
      ensures r.Panic? ==> ShellSpec.ParseCmd(Text()) == Result.Err(r.error)
    {
      hide Skip, ShellSpec.ParseLine, CmdOf;
      assert Rest() == Text();
      r := ParseLine();
      if r.Parsed? {
        var p := Next("");
        if ps != es {
          return Panic(Leftovers);
        }
      }
    }

    /** nulterminate: a NUL at the end of every token, and nowhere else. */
    method NulTerminate(n: Node, ghost s: string)
      requires buf.Length == es + 1 && |s| == es && NodeOk(s, n)
      modifies buf
      ensures forall i :: 0 <= i < buf.Length ==> buf[i] == if i in Ends(n) then NUL else old(buf[i])
      decreases n
    {
      match n
      case ExecNode(argv) =>
        var i := 0;
        while i < |argv|
          invariant i <= |argv|
          invariant forall k :: 0 <= k < buf.Length ==> buf[k] == if k in EndsOf(argv[..i]) then NUL else old(buf[k])
        {
          buf[argv[i].e] := NUL;
          i := i + 1;
        }
        assert argv[..i] == argv;
      case RedirNode(c, f) =>
        NulTerminate(c, s);
        buf[f.name.e] := NUL;
      case PipeNode(l, r) =>
        NulTerminate(l, s);
        NulTerminate(r, s);
      case ListNode(l, r) =>
        NulTerminate(l, s);
        NulTerminate(r, s);
      case BackNode(c) => NulTerminate(c, s);
    }

    /** parsecmd: the line's command, or the panic; afterwards every argv and file pointer, read as a C
        string, is its own token. */
    method Parse() returns (r: Parsed)
      requires Valid() && ps == 0
      modifies this`ps, buf
      ensures r.Panic? ==> ShellSpec.ParseCmd(old(Text())) == Result.Err(r.error)
      ensures r.Parsed? ==>
        && NodeOk(old(Text()), r.node) && ShellSpec.ParseCmd(old(Text())).Ok?
        && CmdOf(old(Text()), r.node) == ShellSpec.ParseCmd(old(Text())).cmd
      ensures r.Parsed? ==> forall sl :: sl in Slices(r.node) ==>
        sl.q <= es && SliceOk(old(Text()), sl) && CString(buf[..], sl.q) == WordOf(old(Text()), sl)
    {
      ghost var s, b := Text(), buf[..];
      r := ParseCmd();
      if r.Parsed? {
        NulTerminate(r.node, s);
        forall sl | sl in Slices(r.node)
          ensures sl.q <= es && SliceOk(s, sl) && CString(buf[..], sl.q) == WordOf(s, sl)
        {
          TokenReadsBack(s, r.node, b, buf[..], sl);
        }
      }
    }
  }

  // ----- the NULs -----

  ghost function EndsOf(argv: seq<Slice>): set<nat> { set sl | sl in argv :: sl.e }

  ghost function Ends(n: Node): set<nat> {
    match n
    case ExecNode(argv) => EndsOf(argv)
    case RedirNode(c, f) => Ends(c) + {f.name.e}
    case PipeNode(l, r) => Ends(l) + Ends(r)
    case ListNode(l, r) => Ends(l) + Ends(r)
    case BackNode(c) => Ends(c)
  }

  ghost function Slices(n: Node): set<Slice> {
    match n
    case ExecNode(argv) => set sl | sl in argv
    case RedirNode(c, f) => Slices(c) + {f.name}
    case PipeNode(l, r) => Slices(l) + Slices(r)
    case ListNode(l, r) => Slices(l) + Slices(r)
    case BackNode(c) => Slices(c)
  }

  /** Tokens end where a word does: at the end of the line or at a character no word contains. */
  lemma {:induction false} EndsAreNotPlain(s: string, n: Node, e: nat)
    requires NodeOk(s, n) && e in Ends(n)
    ensures e <= |s| && (e < |s| ==> !Plain(s[e]))
    decreases n
  {
    match n
    case ExecNode(argv) =>
    case RedirNode(c, f) => if e in Ends(c) { EndsAreNotPlain(s, c, e); }
    case PipeNode(l, r) => EndsAreNotPlain(s, if e in Ends(l) then l else r, e);
    case ListNode(l, r) => EndsAreNotPlain(s, if e in Ends(l) then l else r, e);
    case BackNode(c) => EndsAreNotPlain(s, c, e);
  }

  lemma {:induction false} SliceEnds(s: string, n: Node, sl: Slice)
    requires NodeOk(s, n) && sl in Slices(n)
    ensures SliceOk(s, sl) && sl.e in Ends(n)
    decreases n
  {
    match n
    case ExecNode(argv) =>
    case RedirNode(c, f) => if sl in Slices(c) { SliceEnds(s, c, sl); }
    case PipeNode(l, r) => SliceEnds(s, if sl in Slices(l) then l else r, sl);
    case ListNode(l, r) => SliceEnds(s, if sl in Slices(l) then l else r, sl);
    case BackNode(c) => SliceEnds(s, c, sl);
  }

  /** The C string at `q`. */
  function CString(b: seq<char>, q: nat): string
    requires q <= |b|
    decreases |b| - q
  {
    if q == |b| || b[q] == NUL then "" else [b[q]] + CString(b, q + 1)
  }

  lemma {:induction false} CStringIs(b: seq<char>, q: nat, e: nat)
    requires q <= e < |b| && b[e] == NUL && forall i :: q <= i < e ==> b[i] != NUL
    ensures CString(b, q) == b[q..e]
    decreases e - q
  {
    if q < e { CStringIs(b, q + 1, e); }
  }

  /** No NUL lands inside a token. */
  lemma TokenReadsBack(s: string, n: Node, b: seq<char>, b': seq<char>, sl: Slice)
    requires NodeOk(s, n) && sl in Slices(n) && NUL !in s && |b| == |s| + 1 == |b'| && b[..|s|] == s
    requires forall i :: 0 <= i < |b| ==> b'[i] == if i in Ends(n) then NUL else b[i]
    ensures sl.q <= |b'| && SliceOk(s, sl) && CString(b', sl.q) == WordOf(s, sl)
  {
    SliceEnds(s, n, sl);
    forall i | sl.q <= i < sl.e ensures b'[i] == s[i] && s[i] != NUL {
      if i in Ends(n) { EndsAreNotPlain(s, n, i); }
      assert s[i] in s && b[i] == b[..|s|][i];
    }
    CStringIs(b', sl.q, sl.e);
  }

  lemma ListIs(s: string, l: Node, r: Node)
    requires NodeOk(s, l) && NodeOk(s, r)
    ensures NodeOk(s, ListNode(l, r)) && CmdOf(s, ListNode(l, r)) == List(CmdOf(s, l), CmdOf(s, r))
  {
  }

  lemma {:induction false} BacksSkipped(c: Cmd, u: string)
    ensures Skip(Backs(c, u).rest) == Backs(c, u).rest
    decreases |u|
  {
    if Peek(u, "&") { BacksSkipped(Back(c), GetToken(u).rest); } else { LexAfterSkip(u); }
  }

  lemma TokenAhead(u: string, toks: string)
    requires Peek(u, toks)
    ensures |GetToken(u).rest| < |u|
  {
  }

  lemma ExecOpens(u: string)
    ensures Peek(u, "(") ==> Peek(Skip(u), "(") && ShellSpec.ParseExec(u) == ShellSpec.ParseBlock(Skip(u))
    ensures !Peek(u, "(") && Redirs(Skip(u)).Err? ==> ShellSpec.ParseExec(u) == Result.Err(Redirs(Skip(u)).error)
    ensures !Peek(u, "(") && Redirs(Skip(u)).Ok? ==>
      ShellSpec.ParseExec(u) == ExecLoop([], Redirs(Skip(u)).rs, Redirs(Skip(u)).rest)
    ensures |Skip(u)| <= |u|
  {
    LexAfterSkip(u);
    SkipRedirs(u);
  }

  lemma BlockOpens(u: string)
    requires Peek(u, "(")
    ensures |GetToken(u).rest| < |u|
  {
  }

  lemma BacksOpens(c: Cmd, u: string)
    ensures Peek(u, "&") ==> Backs(c, u) == Backs(Back(c), GetToken(u).rest) && |GetToken(u).rest| < |u|
    ensures !Peek(u, "&") ==> Backs(c, u) == Result.Ok(c, Skip(u))
  {
  }

  predicate ArgsOk(s: string, argv: seq<Slice>) { forall i :: 0 <= i < |argv| ==> SliceOk(s, argv[i]) }

  lemma WordsMore(s: string, argv: seq<Slice>, sl: Slice)
    requires ArgsOk(s, argv) && SliceOk(s, sl)
    ensures ArgsOk(s, argv + [sl]) && WordsOf(s, argv + [sl]) == WordsOf(s, argv) + [WordOf(s, sl)]
  {
  }

  lemma AllFiles(s: string, fs: seq<File>, more: seq<File>)
    requires FilesOk(s, fs) && FilesOk(s, more)
    ensures FilesOk(s, fs + more) && FilesOf(s, fs + more) == FilesOf(s, fs) + FilesOf(s, more)
  {
  }

  lemma WrapExec(s: string, argv: seq<Slice>, fs: seq<File>)
    requires ArgsOk(s, argv) && FilesOk(s, fs)
    ensures NodeOk(s, WrapNode(ExecNode(argv), fs))
    ensures CmdOf(s, WrapNode(ExecNode(argv), fs)) == Wrap(Exec(WordsOf(s, argv)), FilesOf(s, fs))
  {
    WrapNodeIs(s, ExecNode(argv), fs);
  }

  /** The source's character codes for tokens tell the kinds apart. */
  lemma TokenKinds(s: string, t: Token, tok: char, sl: Slice, u: string)
    requires TokenIs(s, t, tok, sl) && t == GetToken(u).tok
    ensures (tok == NUL <==> t == End) && (tok == 'a' <==> t.Word?)
  {
  }

  /** One turn of parseexec's loop, by cases. */
  lemma LoopOpens(args: seq<string>, rs: seq<Redirection>, u: string)
    ensures Peek(u, "|)&;") ==> ExecLoop(args, rs, u) == Result.Ok(Wrap(Exec(args), rs), Skip(u))
    ensures var t := GetToken(Skip(u));
      !Peek(u, "|)&;") ==>
        && (t.tok == End ==> ExecLoop(args, rs, u) == Result.Ok(Wrap(Exec(args), rs), t.rest))
        && (t.tok != End && !t.tok.Word? ==> ExecLoop(args, rs, u) == Result.Err(Syntax))
        && (t.tok.Word? ==> |t.rest| < |u|)
        && (t.tok.Word? && |args| + 1 >= MAXARGS ==> ExecLoop(args, rs, u) == Result.Err(TooManyArgs))
        && (t.tok.Word? && |args| + 1 < MAXARGS && Redirs(t.rest).Err? ==>
              ExecLoop(args, rs, u) == Result.Err(Redirs(t.rest).error))
        && (t.tok.Word? && |args| + 1 < MAXARGS && Redirs(t.rest).Ok? ==>
              |Redirs(t.rest).rest| <= |t.rest| &&
              ExecLoop(args, rs, u) == ExecLoop(args + [t.tok.w], rs + Redirs(t.rest).rs, Redirs(t.rest).rest))
  {
    LexAfterSkip(u);
    hide Skip, WordLen, Symbol, Blank;
  }

  /** The token after a redirection's operator. */
  function RedirFile(u: string): Lexed { GetToken(GetToken(u).rest) }

  function FirstRedir(u: string): Redirection
    requires RedirFile(u).tok.Word?
  {
    Redirection(RedirFile(u).tok.w, if GetToken(u).tok == Sym('<') then In else Out)
  }

  /** The redirections already read, then those still to come. */
  ghost predicate Continues(whole: Redirected, done: seq<Redirection>, rest: Redirected) {
    match rest
    case Ok(rs, v) => whole == Redirected.Ok(done + rs, v)
    case Err(e) => whole == rest
  }

  lemma ContinuesStart(u: string)
    ensures Continues(Redirs(u), [], Redirs(u))
  {
    hide Redirs;
    if Redirs(u).Ok? { assert [] + Redirs(u).rs == Redirs(u).rs; }
  }

  lemma RedirsOpens(u: string)
    requires Peek(u, "<>")
    ensures !RedirFile(u).tok.Word? ==> Redirs(u) == Redirected.Err(MissingFile)
    ensures RedirFile(u).tok.Word? ==> |RedirFile(u).rest| < |u|
  {
  }

  lemma ContinuesEnd(whole: Redirected, done: seq<Redirection>, u: string)
    requires Continues(whole, done, Redirs(u)) && !Peek(u, "<>")
    ensures whole == Redirected.Ok(done, Skip(u))
  {
    assert done + [] == done;
  }

  lemma ContinuesFails(whole: Redirected, done: seq<Redirection>, u: string)
    requires Continues(whole, done, Redirs(u)) && Redirs(u).Err?
    ensures whole == Redirs(u)
  {
  }

  lemma ContinuesNext(whole: Redirected, done: seq<Redirection>, u: string)
    requires Continues(whole, done, Redirs(u)) && Peek(u, "<>") && RedirFile(u).tok.Word?
    ensures Continues(whole, done + [FirstRedir(u)], Redirs(RedirFile(u).rest))
  {
    hide GetToken, Peek, Skip;
    var more := Redirs(RedirFile(u).rest);
    if more.Ok? { assert done + ([FirstRedir(u)] + more.rs) == done + [FirstRedir(u)] + more.rs; }
  }

  lemma FilesMore(s: string, fs: seq<File>, f: File)
    requires FilesOk(s, fs) && SliceOk(s, f.name)
    ensures FilesOk(s, fs + [f]) && FilesOf(s, fs + [f]) == FilesOf(s, fs) + [FileOf(s, f)]
  {
  }

  lemma SkipRedirs(u: string)
    ensures Redirs(Skip(u)) == Redirs(u) && |Skip(u)| <= |u| && (Peek(Skip(u), "<>") <==> Peek(u, "<>"))
  {
    LexAfterSkip(u);
  }

  /** peek leaves the same tokens to read. */
  lemma LexAfterSkip(u: string)
    ensures GetToken(Skip(u)) == GetToken(u) && Skip(Skip(u)) == Skip(u)
  {
  }

  /** gettoken's switch, on what follows the blanks. */
  lemma TokenCases(u: string, v: string)
    requires v == Skip(u)
    ensures v == "" ==> GetToken(u).tok == End && GetToken(u).rest == Skip(v)
    ensures v != "" && Symbol(v[0]) && v[0] != '>' ==> GetToken(u) == Lexed(Sym(v[0]), Skip(v[1..]))
    ensures |v| > 1 && v[0] == '>' && v[1] == '>' ==> GetToken(u) == Lexed(Append, Skip(v[2..]))
    ensures v != "" && v[0] == '>' && (|v| > 1 ==> v[1] != '>') ==> GetToken(u) == Lexed(Sym('>'), Skip(v[1..]))
    ensures v != "" && !Symbol(v[0]) ==>
      !Blank(v[0]) && GetToken(u) == Lexed(Word(v[..WordLen(v)]), Skip(v[WordLen(v)..]))
  {
    LexAfterSkip(u);
  }

  lemma WholeWord(s: string, q: nat, e: nat, v: string)
    requires q < |s| && v == s[q..] && Plain(s[q]) && e == q + WordLen(v)
    ensures SliceOk(s, Slice(q, e)) && WordOf(s, Slice(q, e)) == v[..WordLen(v)]
  {
    assert forall i :: q <= i < |s| ==> s[i] == v[i - q];
  }
}
