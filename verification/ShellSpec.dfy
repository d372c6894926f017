/** The grammar of sh.c's parser, on the characters still to be read, and its inverse. */
module ShellSpec {
  const MAXARGS: nat := 10

  /** In is `< file`; Out is `> file` and `>> file`, which sh.c treats alike. */
  datatype Way = In | Out

  datatype Cmd =
    | Exec(args: seq<string>)
    | Redir(cmd: Cmd, file: string, way: Way)
    | Pipe(left: Cmd, right: Cmd)
    | List(first: Cmd, next: Cmd)
    | Back(job: Cmd)

  datatype Error = MissingFile | MissingParen | Syntax | TooManyArgs | Leftovers

  datatype Result = Ok(cmd: Cmd, rest: string) | Err(error: Error)

  // ----- tokens -----

  predicate Blank(c: char) { c in {' ', '\t', '\r', '\n', 11 as char} }

  predicate Symbol(c: char) { c in {'<', '|', '>', '&', ';', '(', ')'} }

  predicate Plain(c: char) { !Blank(c) && !Symbol(c) }

  function Skip(u: string): (r: string)
    ensures |r| <= |u| && (r != "" ==> !Blank(r[0]))
  {
    if u != "" && Blank(u[0]) then Skip(u[1..]) else u
  }

  function WordLen(u: string): (n: nat)
    ensures n <= |u| && (forall i :: 0 <= i < n ==> Plain(u[i])) && (n < |u| ==> !Plain(u[n]))
  {
    if u == "" || !Plain(u[0]) then 0 else 1 + WordLen(u[1..])
  }

  datatype Token = End | Sym(c: char) | Append | Word(w: string)

  datatype Lexed = Lexed(tok: Token, rest: string)

  /** gettoken: blanks, a token, blanks. */
  function GetToken(u: string): (r: Lexed)
    ensures |r.rest| <= |u| && (r.tok == End <==> Skip(u) == "") && (r.tok != End ==> |r.rest| < |u|)
  {
    var v := Skip(u);
    if v == "" then Lexed(End, "")
    else if v[0] == '>' && |v| > 1 && v[1] == '>' then Lexed(Append, Skip(v[2..]))
    else if Symbol(v[0]) then Lexed(Sym(v[0]), Skip(v[1..]))
    else Lexed(Word(v[..WordLen(v)]), Skip(v[WordLen(v)..]))
  }

  /** peek. */
  predicate Peek(u: string, toks: string) { Skip(u) != "" && Skip(u)[0] in toks }

  // ----- the parser -----

  datatype Redirection = Redirection(file: string, way: Way)

  datatype Redirected = Ok(rs: seq<Redirection>, rest: string) | Err(error: Error)

  /** parseredirs: the redirections at the front. */
  function Redirs(u: string): (r: Redirected)
    ensures r.Ok? ==> |r.rest| <= |u|
    decreases |u|
  {
    if !Peek(u, "<>") then Redirected.Ok([], Skip(u))
    else
      var t := GetToken(u);
      var f := GetToken(t.rest);
      if !f.tok.Word? then Redirected.Err(MissingFile)
      else
        var more := Redirs(f.rest);
        if more.Err? then more
        else Redirected.Ok([Redirection(f.tok.w, if t.tok == Sym('<') then In else Out)] + more.rs, more.rest)
  }

  /** Redirections wrap the command one by one; the last is outermost. */
  function Wrap(c: Cmd, rs: seq<Redirection>): Cmd
    decreases |rs|
  {
    if rs == [] then c else Wrap(Redir(c, rs[0].file, rs[0].way), rs[1..])
  }

  /** parseexec's loop, with the words and redirections met so far. */
  function ExecLoop(args: seq<string>, rs: seq<Redirection>, u: string): (r: Result)
    ensures r.Ok? ==> |r.rest| <= |u|
    decreases |u|
  {
    if Peek(u, "|)&;") then Result.Ok(Wrap(Exec(args), rs), Skip(u))
    else
      var t := GetToken(u);
      if t.tok == End then Result.Ok(Wrap(Exec(args), rs), t.rest)
      else if !t.tok.Word? then Result.Err(Syntax)
      else if |args| + 1 >= MAXARGS then Result.Err(TooManyArgs)
      else
        var more := Redirs(t.rest);
        if more.Err? then Result.Err(more.error) else ExecLoop(args + [t.tok.w], rs + more.rs, more.rest)
  }

  function ParseExec(u: string): (r: Result)
    ensures r.Ok? ==> |r.rest| <= |u|
    decreases |u|, 1
  {
    if Peek(u, "(") then ParseBlock(u)
    else
      var rs := Redirs(u);
      if rs.Err? then Result.Err(rs.error) else ExecLoop([], rs.rs, rs.rest)
  }

  function ParseBlock(u: string): (r: Result)
    requires Peek(u, "(")
    ensures r.Ok? ==> |r.rest| <= |u|
    decreases |u|, 0
  {
    var c := ParseLine(GetToken(u).rest);
    if c.Err? then c
    else if !Peek(c.rest, ")") then Result.Err(MissingParen)
    else
      var rs := Redirs(GetToken(c.rest).rest);
      if rs.Err? then Result.Err(rs.error) else Result.Ok(Wrap(c.cmd, rs.rs), rs.rest)
  }

  function ParsePipe(u: string): (r: Result)
    ensures r.Ok? ==> |r.rest| <= |u|
    decreases |u|, 2
  {
    var c := ParseExec(u);
    if c.Err? then c
    else if !Peek(c.rest, "|") then Result.Ok(c.cmd, Skip(c.rest))
    else
      var d := ParsePipe(GetToken(c.rest).rest);
      if d.Err? then d else Result.Ok(Pipe(c.cmd, d.cmd), d.rest)
  }

  /** parseline's loop over `&`. */
  function Backs(c: Cmd, u: string): (r: Result)
    ensures r.Ok? && |r.rest| <= |u|
    decreases |u|
  {
    if Peek(u, "&") then Backs(Back(c), GetToken(u).rest) else Result.Ok(c, Skip(u))
  }

  function ParseLine(u: string): (r: Result)
    ensures r.Ok? ==> |r.rest| <= |u|
    decreases |u|, 3
  {
    var p := ParsePipe(u);
    if p.Err? then p
    else
      var c := Backs(p.cmd, p.rest);
      if !Peek(c.rest, ";") then c
      else
        var d := ParseLine(GetToken(c.rest).rest);
        if d.Err? then d else Result.Ok(List(c.cmd, d.cmd), d.rest)
  }

  function ParseCmd(s: string): Result {
    var c := ParseLine(s);
    if c.Ok? && Skip(c.rest) != "" then Result.Err(Leftovers) else c
  }

  // ----- printing -----

  /** 0: a command with its redirections; 1: a pipeline; 2: `&` after one; 3: a list. */
  function Level(t: Cmd): nat {
    match t
    case Exec(_) => 0
    case Redir(_, _, _) => 0
    case Pipe(_, _) => 1
    case Back(_) => 2
    case List(_, _) => 3
  }

  function Words(args: seq<string>): string { if args == [] then "" else args[0] + " " + Words(args[1..]) }

  function ShowRedir(r: Redirection): string { (if r.way == In then "<" else ">") + r.file + " " }

  /** The command as text that a context of the given level accepts, in parentheses if it must be. */
  function Show(t: Cmd, level: nat): string
    decreases t, 1
  {
    if Level(t) > level then "(" + Body(t) + ")" else Body(t)
  }

  function Body(t: Cmd): string
    decreases t, 0
  {
    match t
    case Exec(args) => Words(args)
    case Redir(c, file, way) => Show(c, 0) + ShowRedir(Redirection(file, way))
    case Pipe(l, r) => Show(l, 0) + "|" + Show(r, 1)
    case Back(c) => Show(c, 2) + "&"
    case List(l, r) => Show(l, 2) + ";" + Show(r, 3)
  }

  predicate PlainWord(w: string) { w != "" && forall i :: 0 <= i < |w| ==> Plain(w[i]) }

  /** At most MAXARGS - 1 words in a command, and words the lexer takes whole. */
  predicate WellFormed(t: Cmd) {
    match t
    case Exec(args) => |args| < MAXARGS && forall i :: 0 <= i < |args| ==> PlainWord(args[i])
    case Redir(c, file, _) => WellFormed(c) && PlainWord(file)
    case Pipe(l, r) => WellFormed(l) && WellFormed(r)
    case Back(c) => WellFormed(c)
    case List(l, r) => WellFormed(l) && WellFormed(r)
  }

  // ----- reading back what was printed -----

  /** What may follow text of a level: nothing, or a symbol that ends it. */
  predicate Stops(tail: string, level: nat) {
    tail == "" || tail[0] == ')' || (level < 3 && tail[0] == ';') || (level < 2 && tail[0] == '&')
    || (level < 1 && tail[0] == '|')
  }

  lemma {:induction false} WordLenOf(w: string, v: string)
    requires (forall i :: 0 <= i < |w| ==> Plain(w[i])) && (v == "" || !Plain(v[0]))
    ensures WordLen(w + v) == |w|
  {
    if w == "" {
      assert w + v == v;
    } else {
      WordLenOf(w[1..], v);
      assert (w + v)[1..] == w[1..] + v && (w + v)[0] == w[0];
    }
  }

  lemma LexWord(w: string, v: string)
    requires PlainWord(w)
    ensures GetToken(w + (" " + v)) == Lexed(Word(w), Skip(v))
    ensures Skip(w + (" " + v)) == w + (" " + v)
  {
    var u := w + (" " + v);
    assert u[0] == w[0] && Plain(u[0]);
    WordLenOf(w, " " + v);
    assert u[..|w|] == w && u[|w|..] == " " + v;
    assert (" " + v)[1..] == v;
  }

  lemma LexSymbol(c: char, v: string)
    requires Symbol(c) && (c == '>' ==> v == "" || v[0] != '>')
    ensures GetToken([c] + v) == Lexed(Sym(c), Skip(v))
    ensures Skip([c] + v) == [c] + v
  {
    assert ([c] + v)[1..] == v;
  }

  function ShowRedirs(rs: seq<Redirection>): string { if rs == [] then "" else ShowRedir(rs[0]) + ShowRedirs(rs[1..]) }

  /** One printed redirection, read back as two tokens. */
  lemma ReadRedir(r: Redirection, more: string)
    requires PlainWord(r.file)
    ensures var u, t := ShowRedir(r) + more, GetToken(ShowRedir(r) + more);
      && Peek(u, "<>") && t.tok == Sym(if r.way == In then '<' else '>')
      && GetToken(t.rest) == Lexed(Word(r.file), Skip(more))
      && Skip(u) == u
  {
    var c := if r.way == In then '<' else '>';
    var u := r.file + (" " + more);
    assert ShowRedir(r) + more == [c] + u;
    assert u[0] == r.file[0] && Plain(u[0]);
    LexSymbol(c, u);
    LexWord(r.file, more);
  }

  lemma Assoc(a: string, b: string, c: string)
    ensures (a + b) + c == a + (b + c)
  {
  }

  lemma RedirsOpen(rs: seq<Redirection>, tail: string)
    requires rs != []
    ensures ShowRedirs(rs) + tail == ShowRedir(rs[0]) + (ShowRedirs(rs[1..]) + tail)
  {
    Assoc(ShowRedir(rs[0]), ShowRedirs(rs[1..]), tail);
  }

  lemma RedirsStep(u: string, r: Redirection, more: string, rs: seq<Redirection>, tail: string)
    requires Peek(u, "<>") && GetToken(u).tok == Sym(if r.way == In then '<' else '>')
    requires GetToken(GetToken(u).rest) == Lexed(Word(r.file), more) && Redirs(more) == Redirected.Ok(rs, tail)
    ensures Redirs(u) == Redirected.Ok([r] + rs, tail)
  {
    hide GetToken, Skip, Peek;
  }

  predicate PlainRedirs(rs: seq<Redirection>) { forall i :: 0 <= i < |rs| ==> PlainWord(rs[i].file) }

  lemma PlainTail(rs: seq<Redirection>)
    requires PlainRedirs(rs) && rs != []
    ensures PlainWord(rs[0].file) && PlainRedirs(rs[1..]) && [rs[0]] + rs[1..] == rs
  {
  }

  lemma RedirsNone(tail: string)
    requires Skip(tail) == tail && !Peek(tail, "<>")
    ensures ShowRedirs([]) + tail == tail && Redirs(tail) == Redirected.Ok([], tail)
  {
  }

  /** Printed redirections are read back, up to what does not redirect. */
  lemma {:induction false} ReadRedirs(rs: seq<Redirection>, tail: string)
    requires PlainRedirs(rs) && Skip(tail) == tail && !Peek(tail, "<>")
    ensures Redirs(ShowRedirs(rs) + tail) == Redirected.Ok(rs, tail)
    ensures Skip(ShowRedirs(rs) + tail) == ShowRedirs(rs) + tail
    decreases |rs|
  {
    hide *;
    if rs == [] {
      RedirsNone(tail);
    } else {
      var r, more := rs[0], ShowRedirs(rs[1..]) + tail;
      PlainTail(rs);
      ReadRedirs(rs[1..], tail);
      ReadRedir(r, more);
      RedirsOpen(rs, tail);
      RedirsStep(ShowRedir(r) + more, r, more, rs[1..], tail);
    }
  }

  // ----- words -----

  predicate PlainWords(ws: seq<string>) { forall i :: 0 <= i < |ws| ==> PlainWord(ws[i]) }

  lemma WordsTail(ws: seq<string>, v: string)
    requires PlainWords(ws) && ws != []
    ensures PlainWord(ws[0]) && PlainWords(ws[1..]) && Words(ws) + v == ws[0] + (" " + (Words(ws[1..]) + v))
  {
    WordsOpen(ws);
    hide Words;
    Assoc(ws[0] + " ", Words(ws[1..]), v);
    Assoc(ws[0], " ", Words(ws[1..]) + v);
  }

  lemma WordsOpen(ws: seq<string>)
    requires ws != []
    ensures Words(ws) == ws[0] + " " + Words(ws[1..])
  {
  }

  /** A printed word is the next token, and is neither a redirection, a parenthesis nor an end. */
  lemma ReadWord(w: string, more: string)
    requires PlainWord(w)
    ensures var u := w + (" " + more);
      && GetToken(u) == Lexed(Word(w), Skip(more)) && Skip(u) == u
      && !Peek(u, "<>") && !Peek(u, "|)&;") && !Peek(u, "(") && Redirs(u) == Redirected.Ok([], u)
  {
    LexWord(w, more);
    var u := w + (" " + more);
    assert u[0] == w[0] && Plain(u[0]);
  }

  lemma StopHere(args: seq<string>, rs: seq<Redirection>, tail: string)
    requires Stops(tail, 0)
    ensures Skip(tail) == tail && !Peek(tail, "<>") && !Peek(tail, "(")
    ensures ExecLoop(args, rs, tail) == Result.Ok(Wrap(Exec(args), rs), tail)
  {
  }

  lemma LoopStep(args: seq<string>, rs: seq<Redirection>, u: string, w: string, more: string, found: seq<Redirection>,
                 rest: string)
    requires !Peek(u, "|)&;") && GetToken(u) == Lexed(Word(w), more) && |args| + 1 < MAXARGS
    requires Redirs(more) == Redirected.Ok(found, rest)
    ensures |rest| < |u| && ExecLoop(args, rs, u) == ExecLoop(args + [w], rs + found, rest)
  {
    hide Peek, Skip, WordLen, Redirs;
  }

  /** Words followed by redirections, read in parseexec's loop. */
  lemma {:induction false} ReadWords(args: seq<string>, ws: seq<string>, rs: seq<Redirection>, tail: string)
    requires PlainWords(ws) && ws != [] && PlainRedirs(rs) && |args| + |ws| < MAXARGS && Stops(tail, 0)
    ensures ExecLoop(args, [], Words(ws) + (ShowRedirs(rs) + tail)) == Result.Ok(Wrap(Exec(args + ws), rs), tail)
    decreases |ws|
  {
    hide GetToken, Skip, Peek, Redirs, ExecLoop, ShowRedirs, Words, PlainWord, Stops, Wrap;
    var end := ShowRedirs(rs) + tail;
    var more := Words(ws[1..]) + end;
    WordsTail(ws, end);
    ReadWord(ws[0], more);
    StopHere(args + [ws[0]], rs, tail);
    if |ws| == 1 {
      NoWords(ws[1..], end);
      ReadRedirs(rs, tail);
      LoopStep(args, [], ws[0] + (" " + more), ws[0], more, rs, tail);
      assert [] + rs == rs && ws == [ws[0]];
    } else {
      WordsTail(ws[1..], end);
      ReadWord(ws[1], Words(ws[1..][1..]) + end);
      var none: seq<Redirection> := [];
      assert none + none == none;
      LoopStep(args, none, ws[0] + (" " + more), ws[0], more, none, more);
      ReadWords(args + [ws[0]], ws[1..], rs, tail);
      assert args + [ws[0]] + ws[1..] == args + ws;
    }
  }

  lemma NoWords(ws: seq<string>, v: string)
    requires ws == []
    ensures Words(ws) + v == v
  {
  }

  /** A simple command with its redirections. */
  lemma ReadExec(args: seq<string>, rs: seq<Redirection>, tail: string)
    requires PlainWords(args) && PlainRedirs(rs) && |args| < MAXARGS && Stops(tail, 0)
    ensures ParseExec(Words(args) + (ShowRedirs(rs) + tail)) == Result.Ok(Wrap(Exec(args), rs), tail)
  {
    hide GetToken, Skip, Peek, Redirs, ExecLoop, ShowRedirs, Words, PlainWord, Stops, Wrap;
    var end := ShowRedirs(rs) + tail;
    StopHere(args, rs, tail);
    if args == [] {
      NoWords(args, end);
      ReadRedirs(rs, tail);
      NotParen(rs, tail);
    } else {
      WordsTail(args, end);
      ReadWord(args[0], Words(args[1..]) + end);
      ReadWords([], args, rs, tail);
      assert [] + args == args;
    }
  }

  lemma NotParen(rs: seq<Redirection>, tail: string)
    requires PlainRedirs(rs) && Skip(tail) == tail && !Peek(tail, "(")
    ensures !Peek(ShowRedirs(rs) + tail, "(")
  {
    if rs == [] {
      assert ShowRedirs(rs) + tail == tail;
    } else {
      PlainTail(rs);
      RedirsOpen(rs, tail);
      ReadRedir(rs[0], ShowRedirs(rs[1..]) + tail);
    }
  }

  // ----- a command and its chain of redirections -----

  function BaseOf(t: Cmd): Cmd { if t.Redir? then BaseOf(t.cmd) else t }

  function RedirsOf(t: Cmd): seq<Redirection> {
    if t.Redir? then RedirsOf(t.cmd) + [Redirection(t.file, t.way)] else []
  }

  lemma {:induction false} WrapLast(c: Cmd, rs: seq<Redirection>, r: Redirection)
    ensures Wrap(c, rs + [r]) == Redir(Wrap(c, rs), r.file, r.way)
    decreases |rs|
  {
    if rs == [] {
      assert rs + [r] == [r];
    } else {
      WrapLast(Redir(c, rs[0].file, rs[0].way), rs[1..], r);
      assert (rs + [r])[1..] == rs[1..] + [r];
    }
  }

  lemma {:induction false} ShowLast(rs: seq<Redirection>, r: Redirection, v: string)
    ensures ShowRedirs(rs + [r]) + v == ShowRedirs(rs) + (ShowRedir(r) + v)
    decreases |rs|
  {
    if rs == [] {
      assert rs + [r] == [r];
      assert ShowRedirs([r]) == ShowRedir(r) + "";
    } else {
      ShowLast(rs[1..], r, v);
      RedirsOpen(rs, ShowRedir(r) + v);
      RedirsOpen(rs + [r], v);
      assert (rs + [r])[1..] == rs[1..] + [r];
    }
  }

  /** A command is its base wrapped in its redirections, and is printed so. */
  lemma {:induction false} Chain(t: Cmd, tail: string)
    requires WellFormed(t)
    ensures Wrap(BaseOf(t), RedirsOf(t)) == t && WellFormed(BaseOf(t)) && PlainRedirs(RedirsOf(t)) && !BaseOf(t).Redir?
    ensures Show(t, 0) + tail == Show(BaseOf(t), 0) + (ShowRedirs(RedirsOf(t)) + tail)
    ensures t.Redir? ==> BaseOf(t) < t
    ensures !t.Redir? ==> BaseOf(t) == t
  {
    if t.Redir? {
      var r := Redirection(t.file, t.way);
      Chain(t.cmd, ShowRedir(r) + tail);
      WrapLast(BaseOf(t.cmd), RedirsOf(t.cmd), r);
      ShowLast(RedirsOf(t.cmd), r, tail);
      Assoc(Show(t.cmd, 0), ShowRedir(r), tail);
    } else {
      assert ShowRedirs([]) + tail == tail;
    }
  }

  // ----- the round trip -----

  /** Printed text begins with no blank, unless what follows it does. */
  lemma {:induction false} NoLead(t: Cmd, level: nat, v: string)
    requires WellFormed(t) && Skip(v) == v
    ensures Skip(Show(t, level) + v) == Show(t, level) + v
    decreases t
  {
    if Level(t) > level {
      assert (Show(t, level) + v)[0] == '(';
    } else {
      match t
      case Exec(args) =>
        if args == [] { NoWords(args, v); } else { WordsTail(args, v); ReadWord(args[0], Words(args[1..]) + v); }
      case Redir(c, file, way) =>
        var r := ShowRedir(Redirection(file, way));
        Assoc(Show(c, 0), r, v);
        NoLead(c, 0, r + v);
      case Pipe(l, r) =>
        Assoc(Show(l, 0), "|" + Show(r, 1), v);
        assert Show(l, 0) + "|" + Show(r, 1) == Show(l, 0) + ("|" + Show(r, 1));
        NoLead(l, 0, "|" + Show(r, 1) + v);
      case Back(c) =>
        Assoc(Show(c, 2), "&", v);
        NoLead(c, 2, "&" + v);
      case List(l, r) =>
        assert Show(l, 2) + ";" + Show(r, 3) == Show(l, 2) + (";" + Show(r, 3));
        Assoc(Show(l, 2), ";" + Show(r, 3), v);
        NoLead(l, 2, ";" + Show(r, 3) + v);
    }
  }

  /** parseline up to its `;`. */
  function Jobs(u: string): Result {
    var p := ParsePipe(u);
    if p.Err? then p else Backs(p.cmd, p.rest)
  }

  function Rank(t: Cmd, level: nat): nat { if level >= Level(t) then level else 10 + level }

  lemma ReadBlock(t: Cmd, rs: seq<Redirection>, inner: string, end: string, tail: string)
    requires Skip(inner) == inner && ParseLine(inner) == Result.Ok(t, ")" + end) && Skip(end) == end
    requires Redirs(end) == Redirected.Ok(rs, tail)
    ensures ParseExec("(" + inner) == Result.Ok(Wrap(t, rs), tail)
  {
    LexSymbol('(', inner);
    LexSymbol(')', end);
    assert "(" + inner == ['('] + inner && ")" + end == [')'] + end;
    hide GetToken, Skip, Redirs, ParseLine, Wrap;
  }

  lemma ShowParen(t: Cmd, end: string)
    requires WellFormed(t) && Level(t) > 0
    ensures Show(t, 0) + end == "(" + (Body(t) + (")" + end)) && Show(t, 3) == Body(t)
  {
    Assoc("(" + Body(t), ")", end);
    Assoc("(", Body(t), ")" + end);
  }

  lemma {:induction false} ReadLevel0(t: Cmd, tail: string)
    requires WellFormed(t) && Stops(tail, 0)
    ensures ParseExec(Show(t, 0) + tail) == Result.Ok(t, tail)
    decreases t, Rank(t, 0)
  {
    Chain(t, tail);
    StopHere([], [], tail);
    hide Skip, GetToken, Peek, Redirs, ExecLoop, ParseExec, ParseBlock, ParsePipe, ParseLine, Backs, Jobs;
    hide Show, Body, Stops, Words, ShowRedirs, Wrap, BaseOf, RedirsOf, WellFormed;
    var base, rs := BaseOf(t), RedirsOf(t);
    if base.Exec? {
      ReadExec(base.args, rs, tail);
    } else {
      var end := ShowRedirs(rs) + tail;
      var inner := Body(base) + (")" + end);
      ReadRedirs(rs, tail);
      ShowParen(base, end);
      ReadLevel3(base, ")" + end);
      NoLead(base, 3, ")" + end);
      ReadBlock(base, rs, inner, end, tail);
    }
  }

  lemma ShowPipe(t: Cmd, tail: string)
    requires t.Pipe? && WellFormed(t)
    ensures WellFormed(t.left) && WellFormed(t.right)
    ensures Show(t, 1) + tail == Show(t.left, 0) + ("|" + (Show(t.right, 1) + tail))
  {
    Assoc(Show(t.left, 0) + "|", Show(t.right, 1), tail);
    Assoc(Show(t.left, 0), "|", Show(t.right, 1) + tail);
  }

  lemma {:induction false} ReadLevel1(t: Cmd, tail: string)
    requires WellFormed(t) && Stops(tail, 1)
    ensures ParsePipe(Show(t, 1) + tail) == Result.Ok(t, tail)
    decreases t, Rank(t, 1)
  {
    if t.Pipe? {
      var more := Show(t.right, 1) + tail;
      ShowPipe(t, tail);
      hide Skip, GetToken, Peek, Redirs, ExecLoop, ParseExec, ParseBlock, ParsePipe, ParseLine, Backs, Jobs;
      hide Show, Body, Stops, Words, ShowRedirs, Wrap, BaseOf, RedirsOf, WellFormed;
      ReadLevel0(t.left, "|" + more);
      ReadLevel1(t.right, tail);
      NoLead(t.right, 1, tail);
    } else {
      assert Show(t, 1) == Show(t, 0);
      hide Skip, GetToken, Peek, Redirs, ExecLoop, ParseExec, ParseBlock, ParsePipe, ParseLine, Backs, Jobs;
      hide Show, Body, Stops, Words, ShowRedirs, Wrap, BaseOf, RedirsOf, WellFormed;
      ReadLevel0(t, tail);
    }
  }

  lemma ShowBack(t: Cmd, tail: string)
    requires t.Back? && WellFormed(t)
    ensures WellFormed(t.job) && Show(t, 2) + tail == Show(t.job, 2) + ("&" + tail)
  {
    Assoc(Show(t.job, 2), "&", tail);
  }

  /** What follows may be more `&`: the loop goes on from the command just read. */
  lemma {:induction false} ReadLevel2(t: Cmd, tail: string)
    requires WellFormed(t) && Stops(tail, 1)
    ensures Jobs(Show(t, 2) + tail) == Backs(t, tail)
    decreases t, Rank(t, 2)
  {
    if t.Back? {
      ShowBack(t, tail);
      hide Skip, GetToken, Peek, Redirs, ExecLoop, ParseExec, ParseBlock, ParsePipe, ParseLine, Backs, Jobs;
      hide Show, Body, Stops, Words, ShowRedirs, Wrap, BaseOf, RedirsOf, WellFormed;
      ReadLevel2(t.job, "&" + tail);
    } else {
      assert Show(t, 2) == Show(t, 1);
      hide Skip, GetToken, Peek, Redirs, ExecLoop, ParseExec, ParseBlock, ParsePipe, ParseLine, Backs, Jobs;
      hide Show, Body, Stops, Words, ShowRedirs, Wrap, BaseOf, RedirsOf, WellFormed;
      ReadLevel1(t, tail);
    }
  }

  lemma ShowList(t: Cmd, tail: string)
    requires t.List? && WellFormed(t)
    ensures WellFormed(t.first) && WellFormed(t.next)
    ensures Show(t, 3) + tail == Show(t.first, 2) + (";" + (Show(t.next, 3) + tail))
  {
    Assoc(Show(t.first, 2) + ";", Show(t.next, 3), tail);
    Assoc(Show(t.first, 2), ";", Show(t.next, 3) + tail);
  }

  lemma ListStep(u: string, l: Cmd, more: string, r: Cmd, tail: string)
    requires Jobs(u) == Backs(l, ";" + more) && ParseLine(more) == Result.Ok(r, tail) && Skip(more) == more
    ensures ParseLine(u) == Result.Ok(List(l, r), tail)
  {
    LexSymbol(';', more);
    assert ";" + more == [';'] + more;
    assert Backs(l, ";" + more) == Result.Ok(l, ";" + more);
    hide Skip, GetToken, ParsePipe, Backs;
  }

  lemma {:induction false} ReadLevel3(t: Cmd, tail: string)
    requires WellFormed(t) && Stops(tail, 3)
    ensures ParseLine(Show(t, 3) + tail) == Result.Ok(t, tail)
    decreases t, Rank(t, 3)
  {
    if t.List? {
      var more := Show(t.next, 3) + tail;
      ShowList(t, tail);
      hide Skip, GetToken, Peek, Redirs, ExecLoop, ParseExec, ParseBlock, ParsePipe, ParseLine, Backs, Jobs;
      hide Show, Body, Stops, Words, ShowRedirs, Wrap, BaseOf, RedirsOf, WellFormed;
      ReadLevel2(t.first, ";" + more);
      ReadLevel3(t.next, tail);
      NoLead(t.next, 3, tail);
      ListStep(Show(t.first, 2) + (";" + more), t.first, more, t.next, tail);
    } else {
      assert Show(t, 3) == Show(t, 2);
      hide Skip, GetToken, Peek, Redirs, ExecLoop, ParseExec, ParseBlock, ParsePipe, ParseLine, Backs, Jobs;
      hide Show, Body, Stops, Words, ShowRedirs, Wrap, BaseOf, RedirsOf, WellFormed;
      ReadLevel2(t, tail);
    }
  }

  /** Printing a well-formed command, with parentheses where the grammar needs them, and parsing the
      text gives the command back. */
  lemma RoundTrip(t: Cmd)
    requires WellFormed(t)
    ensures ParseCmd(Show(t, 3)) == Result.Ok(t, "")
  {
    ReadLevel3(t, "");
    assert Show(t, 3) + "" == Show(t, 3);
  }

  // ----- what parses is well formed -----

  lemma {:induction false} RedirsArePlain(u: string)
    ensures Redirs(u).Ok? ==> PlainRedirs(Redirs(u).rs)
    decreases |u|
  {
    if Peek(u, "<>") {
      var f := GetToken(GetToken(u).rest);
      if f.tok.Word? { RedirsArePlain(f.rest); }
    }
  }

  lemma {:induction false} WrapWellFormed(c: Cmd, rs: seq<Redirection>)
    requires WellFormed(c) && PlainRedirs(rs)
    ensures WellFormed(Wrap(c, rs))
    decreases |rs|
  {
    if rs != [] { WrapWellFormed(Redir(c, rs[0].file, rs[0].way), rs[1..]); }
  }

  lemma {:induction false} LoopWellFormed(args: seq<string>, rs: seq<Redirection>, u: string)
    requires PlainWords(args) && |args| < MAXARGS && PlainRedirs(rs)
    ensures ExecLoop(args, rs, u).Ok? ==> WellFormed(ExecLoop(args, rs, u).cmd)
    decreases |u|
  {
    WrapWellFormed(Exec(args), rs);
    var t := GetToken(u);
    RedirsArePlain(t.rest);
    var more := Redirs(t.rest);
    if t.tok.Word? && |args| + 1 < MAXARGS && more.Ok? {
      LoopWellFormed(args + [t.tok.w], rs + more.rs, more.rest);
    }
  }

  lemma {:induction false} ExecWellFormed(u: string)
    ensures ParseExec(u).Ok? ==> WellFormed(ParseExec(u).cmd)
    decreases |u|, 1
  {
    if Peek(u, "(") {
      LineWellFormed(GetToken(u).rest);
      var c := ParseLine(GetToken(u).rest);
      if c.Ok? && Peek(c.rest, ")") {
        RedirsArePlain(GetToken(c.rest).rest);
        var rs := Redirs(GetToken(c.rest).rest);
        if rs.Ok? { WrapWellFormed(c.cmd, rs.rs); }
      }
    } else {
      RedirsArePlain(u);
      if Redirs(u).Ok? { LoopWellFormed([], Redirs(u).rs, Redirs(u).rest); }
    }
  }

  lemma {:induction false} PipeWellFormed(u: string)
    ensures ParsePipe(u).Ok? ==> WellFormed(ParsePipe(u).cmd)
    decreases |u|, 2
  {
    ExecWellFormed(u);
    var c := ParseExec(u);
    if c.Ok? && Peek(c.rest, "|") { PipeWellFormed(GetToken(c.rest).rest); }
  }

  lemma {:induction false} BacksWellFormed(c: Cmd, u: string)
    requires WellFormed(c)
    ensures WellFormed(Backs(c, u).cmd)
    decreases |u|
  {
    if Peek(u, "&") { BacksWellFormed(Back(c), GetToken(u).rest); }
  }

  lemma {:induction false} LineWellFormed(u: string)
    ensures ParseLine(u).Ok? ==> WellFormed(ParseLine(u).cmd)
    decreases |u|, 3
  {
    PipeWellFormed(u);
    var p := ParsePipe(u);
    if p.Ok? {
      BacksWellFormed(p.cmd, p.rest);
      var c := Backs(p.cmd, p.rest);
      if Peek(c.rest, ";") { LineWellFormed(GetToken(c.rest).rest); }
    }
  }

  /** Exactly the well-formed commands can be parsed, and every accepted line means what its parse
      prints. */
  lemma ParseIsWellFormed(s: string)
    requires ParseCmd(s).Ok?
    ensures WellFormed(ParseCmd(s).cmd) && ParseCmd(Show(ParseCmd(s).cmd, 3)) == Result.Ok(ParseCmd(s).cmd, "")
  {
    LineWellFormed(s);
    RoundTrip(ParseCmd(s).cmd);
  }
}
