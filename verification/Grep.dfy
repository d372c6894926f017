/** The regular-expression matcher of grep.c. */
module Grep {
  // A C string is the sequence of its characters before the NUL.

  // ----- what a pattern means -----

  /** `c` on its own, or `c*`; the character `.` stands for any character. */
  datatype Item = One(c: char) | Star(c: char)

  /** A pattern without a leading `^`: its items, and whether it ends in an anchoring `$`. */
  datatype Body = Body(items: seq<Item>, atEnd: bool)

  predicate Accepts(c: char, x: char) {
    c == '.' || c == x
  }

  predicate AllAccepted(c: char, w: string) {
    forall i :: 0 <= i < |w| ==> Accepts(c, w[i])
  }

  /** Reading a pattern: a `*` stars the character before it, wherever both stand; a `$` anchors
      only as the last character, unstarred. */
  function Read(re: string): Body {
    if re == "" then Body([], false)
    else if |re| > 1 && re[1] == '*' then
      var b := Read(re[2..]);
      Body([Star(re[0])] + b.items, b.atEnd)
    else if re == "$" then Body([], true)
    else
      var b := Read(re[1..]);
      Body([One(re[0])] + b.items, b.atEnd)
  }

  /** The words an item stands for. */
  predicate Spells(it: Item, w: string) {
    match it
    case One(c) => |w| == 1 && Accepts(c, w[0])
    case Star(c) => AllAccepted(c, w)
  }

  function Flat(ws: seq<string>): string {
    if ws == [] then "" else ws[0] + Flat(ws[1..])
  }

  /** `ws` gives each item its word, and together they are a prefix of the text, all of it when
      the pattern is anchored at the end. */
  ghost predicate Witness(b: Body, text: string, ws: seq<string>) {
    && |ws| == |b.items| && (forall k :: 0 <= k < |ws| ==> Spells(b.items[k], ws[k]))
    && Flat(ws) <= text && (b.atEnd ==> Flat(ws) == text)
  }

  /** The text begins with a word of the pattern's language. */
  ghost predicate Here(re: string, text: string) {
    exists ws :: Witness(Read(re), text, ws)
  }

  /** Some substring of the text is in the language; it starts the text when the pattern begins
      with `^`. */
  ghost predicate Matches(re: string, text: string) {
    if re != "" && re[0] == '^' then Here(re[1..], text)
    else exists i :: 0 <= i <= |text| && Here(re, text[i..])
  }

  // ----- how the language unfolds -----

  lemma WitnessTail(b: Body, text: string, ws: seq<string>, rest: Body)
    requires |ws| > 0 && Witness(b, text, ws) && |b.items| > 0 && rest == Body(b.items[1..], b.atEnd)
    ensures Spells(b.items[0], ws[0]) && ws[0] <= text && Witness(rest, text[|ws[0]|..], ws[1..])
  {
    var f := Flat(ws[1..]);
    assert Flat(ws) == ws[0] + f;
    assert text[..|Flat(ws)|] == ws[0] + f;
    assert text[..|ws[0]|] == (ws[0] + f)[..|ws[0]|] == ws[0];
    assert text[|ws[0]|..][..|f|] == text[..|Flat(ws)|][|ws[0]|..] == f;
  }

  lemma HereEmpty(text: string)
    ensures Here("", text)
  {
    assert Witness(Read(""), text, []);
  }

  lemma HereEnd(text: string)
    ensures Here("$", text) <==> text == ""
  {
    if text == "" {
      assert Witness(Read("$"), text, []);
    }
  }

  /** A starred character takes some accepted prefix, and the rest matches after it. */
  lemma HereStar(re: string, text: string)
    requires |re| > 1 && re[1] == '*'
    ensures Here(re, text) <==>
      exists k :: 0 <= k <= |text| && AllAccepted(re[0], text[..k]) && Here(re[2..], text[k..])
  {
    var b, rest := Read(re), Read(re[2..]);
    if Here(re, text) {
      var ws :| Witness(b, text, ws);
      assert b.items[1..] == rest.items;
      WitnessTail(b, text, ws, rest);
      assert AllAccepted(re[0], text[..|ws[0]|]) && Here(re[2..], text[|ws[0]|..]);
    }
    if k :| 0 <= k <= |text| && AllAccepted(re[0], text[..k]) && Here(re[2..], text[k..]) {
      var ws :| Witness(rest, text[k..], ws);
      assert Witness(b, text, [text[..k]] + ws);
    }
  }

  /** A plain character takes one accepted character of the text. */
  lemma HereOne(re: string, text: string)
    requires re != "" && re != "$" && !(|re| > 1 && re[1] == '*')
    ensures Here(re, text) <==> text != "" && Accepts(re[0], text[0]) && Here(re[1..], text[1..])
  {
    var b, rest := Read(re), Read(re[1..]);
    if Here(re, text) {
      var ws :| Witness(b, text, ws);
      assert b.items[1..] == rest.items;
      WitnessTail(b, text, ws, rest);
      assert text[0] == ws[0][0];
    }
    if text != "" && Accepts(re[0], text[0]) && Here(re[1..], text[1..]) {
      var ws :| Witness(rest, text[1..], ws);
      assert Witness(b, text, [text[..1]] + ws);
    }
  }

  /** A pattern without special characters matches exactly the texts that contain it. */
  lemma {:induction false} PlainIsSubstring(re: string, text: string)
    requires forall i :: 0 <= i < |re| ==> re[i] !in {'^', '$', '.', '*'}
    ensures Here(re, text) <==> re <= text
    ensures Matches(re, text) <==> exists i :: 0 <= i <= |text| && re <= text[i..]
  {
    PlainHere(re, text);
    forall i | 0 <= i <= |text| ensures Here(re, text[i..]) <==> re <= text[i..] {
      PlainHere(re, text[i..]);
    }
  }

  lemma {:induction false} PlainHere(re: string, text: string)
    requires forall i :: 0 <= i < |re| ==> re[i] !in {'^', '$', '.', '*'}
    ensures Here(re, text) <==> re <= text
  {
    if re == "" {
      HereEmpty(text);
    } else {
      assert re[0] != '$';
      HereOne(re, text);
      if text != "" {
        PlainHere(re[1..], text[1..]);
        assert re <= text <==> re[0] == text[0] && re[1..] <= text[1..] by {
          assert re == [re[0]] + re[1..] && text == [text[0]] + text[1..];
        }
      }
    }
  }

  // ----- the matcher -----

  /** matchhere: search for `re` at the beginning of the text. */
  method MatchHere(re: string, text: string) returns (r: bool)
    ensures r <==> Here(re, text)
    decreases |re|, 0
  {
    if re == "" {
      HereEmpty(text);
      return true;
    }
    if |re| > 1 && re[1] == '*' {
      HereStar(re, text);
      r := MatchStar(re[0], re[2..], text);
      return;
    }
    if re[0] == '$' && |re| == 1 {
      assert re == "$";
      HereEnd(text);
      return text == "";
    }
    HereOne(re, text);
    if text != "" && (re[0] == '.' || re[0] == text[0]) {
      r := MatchHere(re[1..], text[1..]);
      return;
    }
    return false;
  }

  /** matchstar: search for `c*re` at the beginning of the text; its loop tries every length. */
  method MatchStar(c: char, re: string, text: string) returns (r: bool)
    ensures r <==> exists k :: 0 <= k <= |text| && AllAccepted(c, text[..k]) && Here(re, text[k..])
    decreases |re|, 1
  {
    var t := 0;
    while true
      invariant t <= |text| && AllAccepted(c, text[..t])
      invariant forall k :: 0 <= k < t ==> !Here(re, text[k..])
      decreases |text| - t
    {
      r := MatchHere(re, text[t..]);
      if r {
        return;
      }
      if t == |text| || !(text[t] == c || c == '.') {
        forall k | t < k <= |text| ensures !AllAccepted(c, text[..k]) {
          assert text[..k][t] == text[t];
        }
        return false;
      }
      t := t + 1;
    }
  }

  /** match: true exactly when some substring of the text is in the language of `re`. */
  method Match(re: string, text: string) returns (r: bool)
    ensures r <==> Matches(re, text)
  {
    if re != "" && re[0] == '^' {
      r := MatchHere(re[1..], text);
      return;
    }
    var t := 0;
    while true
      invariant t <= |text|
      invariant forall k :: 0 <= k < t ==> !Here(re, text[k..])
      decreases |text| - t
    {
      r := MatchHere(re, text[t..]);
      if r {
        return;
      }
      if t == |text| {
        return false;
      }
      t := t + 1;
    }
  }
}
