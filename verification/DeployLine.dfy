/** The deploy command line (internal/domain/deployment/engine.go) as the remote shell reads it. */
module DeployLine {
  import opened Wrappers
  import opened Quote

  function Lits(s: string): (pieces: seq<Piece>)
    ensures |pieces| == |s| && forall i :: 0 <= i < |s| ==> pieces[i] == Lit(s[i])
  {
    seq(|s|, i requires 0 <= i < |s| => Lit(s[i]))
  }

  /** A format string with its quoted values: text, a value, and so on up to the last text. */
  datatype Line = End(text: string) | Part(text: string, value: string, rest: Line)

  function Sprintf(l: Line): string {
    match l
    case End(text) => text
    case Part(text, value, rest) => text + (ShQuote(value) + Sprintf(rest))
  }

  function Pieces(l: Line): seq<Piece> {
    match l
    case End(text) => Lits(text)
    case Part(text, value, rest) => Lits(text) + ([Arg(value)] + Pieces(rest))
  }

  /** The checkout command of a deployment. */
  function Checkout(path: string, branch: string, url: string): Line {
    Part("set -e; mkdir -p ", path,
    Part("; if [ -d ", path,
    Part("/.git ]; then cd ", path,
    Part(" && git fetch origin ", branch,
    Part(" && git checkout ", branch,
    Reset(path, branch, url))))))
  }

  function Reset(path: string, branch: string, url: string): Line {
    Part(" && git reset --hard origin/", branch,
    Part("; else git clone --branch ", branch,
    Part(" ", url,
    Part(" ", path,
    End("; fi")))))
  }

  /** What the line means: the same commands for all values, each value within its word. */
  function Meaning(path: string, branch: string, url: string): seq<Token> {
    [Word("set"), Word("-e"), Operator(";"), Word("mkdir"), Word("-p")] +
    ([Word(path), Operator(";"), Word("if"), Word("["), Word("-d")] +
    ([Word(path + "/.git"), Word("]"), Operator(";"), Word("then"), Word("cd")] +
    ([Word(path), Operator("&&"), Word("git"), Word("fetch"), Word("origin")] +
    ([Word(branch), Operator("&&"), Word("git"), Word("checkout")] +
    ResetMeaning(path, branch, url)))))
  }

  function ResetMeaning(path: string, branch: string, url: string): seq<Token> {
    [Word(branch), Operator("&&"), Word("git"), Word("reset"), Word("--hard")] +
    ([Word("origin/" + branch), Operator(";"), Word("else"), Word("git"), Word("clone"), Word("--branch")] +
    ([Word(branch)] + ([Word(url)] + [Word(path), Operator(";"), Word("fi")])))
  }

  // ------------------------------------------------------------------------ reading literals

  predicate IsPlainWord(s: string) {
    IsPlain(s) && s != []
  }

  lemma {:induction false} ReadLits(a: string, rest: seq<Piece>, word: Option<string>)
    requires IsPlainWord(a)
    ensures ReadPieces(Lits(a) + rest, word) == ReadPieces(rest, Extend(word, a))
    decreases |a|
  {
    var pieces := Lits(a) + rest;
    assert pieces[0] == Lit(a[0]) && pieces[1..] == Lits(a[1..]) + rest;
    if |a| == 1 {
      assert pieces[1..] == rest;
      assert a == [a[0]];
    } else {
      ReadLits(a[1..], rest, Extend(word, [a[0]]));
      ExtendTwice(word, [a[0]], a[1..]);
      assert [a[0]] + a[1..] == a;
    }
  }

  lemma FirstWord(a: string)
    ensures Extend(None, a) == Some(a)
  {
    assert [] + a == a;
  }

  /** Words with a blank after each. */
  function Say(words: seq<string>): seq<Piece> {
    if words == [] then [] else Lits(words[0]) + ([Lit(' ')] + Say(words[1..]))
  }

  lemma ReadGap(pieces: seq<Piece>, rest: seq<Piece>, word: Option<string>)
    requires pieces == [Lit(' ')] + rest
    ensures ReadPieces(pieces, word) == Then(Flush(word), ReadPieces(rest, None))
  {
    assert pieces[1..] == rest;
  }

  lemma ThenThen(a: seq<Token>, b: seq<Token>, t: Option<seq<Token>>)
    ensures Then(a, Then(b, t)) == Then(a + b, t)
  {
    if t.Some? {
      assert a + (b + t.value) == a + b + t.value;
    }
  }

  lemma SayRegroup(word: seq<Piece>, more: seq<Piece>, rest: seq<Piece>)
    ensures word + ([Lit(' ')] + more) + rest == word + ([Lit(' ')] + (more + rest))
  {
  }

  lemma {:induction false} ReadSay(words: seq<string>, rest: seq<Piece>)
    requires forall i :: 0 <= i < |words| ==> IsPlainWord(words[i])
    ensures ReadPieces(Say(words) + rest, None) == Then(AllWords(words), ReadPieces(rest, None))
    decreases |words|
  {
    if words == [] {
      assert Say(words) + rest == rest;
      ThenNothing(ReadPieces(rest, None));
    } else {
      var more := Say(words[1..]) + rest;
      SayRegroup(Lits(words[0]), Say(words[1..]), rest);
      ReadLits(words[0], [Lit(' ')] + more, None);
      FirstWord(words[0]);
      ReadGap([Lit(' ')] + more, more, Some(words[0]));
      ReadSay(words[1..], rest);
      ThenThen([Word(words[0])], AllWords(words[1..]), ReadPieces(rest, None));
    }
  }

  lemma ReadSemicolon(pieces: seq<Piece>, rest: seq<Piece>, word: Option<string>)
    requires pieces == [Lit(';'), Lit(' ')] + rest
    ensures ReadPieces(pieces, word) == Then(Flush(word) + [Operator(";")], ReadPieces(rest, None))
  {
    assert pieces[1..] == [Lit(' ')] + rest;
    ReadGap(pieces[1..], rest, None);
    ThenNothing(ReadPieces(rest, None));
  }

  lemma ReadAndAnd(pieces: seq<Piece>, rest: seq<Piece>, word: Option<string>)
    requires pieces == [Lit(' '), Lit('&'), Lit('&'), Lit(' ')] + rest
    ensures ReadPieces(pieces, word) == Then(Flush(word) + [Operator("&&")], ReadPieces(rest, None))
  {
    var and := pieces[1..];
    ReadGap(pieces, and, word);
    assert and[2..] == [Lit(' ')] + rest;
    ReadGap(and[2..], rest, None);
    ThenNothing(ReadPieces(rest, None));
    assert Flush(None) + [Operator("&&")] == [Operator("&&")];
    assert ReadPieces(and, None) == Then([Operator("&&")], ReadPieces(rest, None));
    ThenThen(Flush(word), [Operator("&&")], ReadPieces(rest, None));
  }

  lemma ReadArg(pieces: seq<Piece>, s: string, rest: seq<Piece>, word: Option<string>)
    requires pieces == [Arg(s)] + rest
    ensures ReadPieces(pieces, word) == ReadPieces(rest, Extend(word, s))
  {
    assert pieces[1..] == rest;
  }

  lemma Combine(a: Option<seq<Token>>, word: string, op: string, words: seq<string>, b: Option<seq<Token>>,
      c: Option<seq<Token>>)
    requires a == Then(Flush(Some(word)) + [Operator(op)], b) && b == Then(AllWords(words), c)
    ensures a == Then([Word(word), Operator(op)] + AllWords(words), c)
  {
    assert Flush(Some(word)) + [Operator(op)] == [Word(word), Operator(op)];
    ThenThen([Word(word), Operator(op)], AllWords(words), c);
  }

  /** A semicolon and the words after it. */
  lemma ReadNext(words: seq<string>, pieces: seq<Piece>, rest: seq<Piece>, word: string)
    requires forall i :: 0 <= i < |words| ==> IsPlainWord(words[i])
    requires pieces == [Lit(';'), Lit(' ')] + (Say(words) + rest)
    ensures ReadPieces(pieces, Some(word))
      == Then([Word(word), Operator(";")] + AllWords(words), ReadPieces(rest, None))
  {
    ReadSemicolon(pieces, Say(words) + rest, Some(word));
    ReadSay(words, rest);
    Combine(ReadPieces(pieces, Some(word)), word, ";", words, ReadPieces(Say(words) + rest, None),
      ReadPieces(rest, None));
  }

  /** The words after &&. */
  lemma ReadAndThen(words: seq<string>, pieces: seq<Piece>, rest: seq<Piece>, word: string)
    requires forall i :: 0 <= i < |words| ==> IsPlainWord(words[i])
    requires pieces == [Lit(' '), Lit('&'), Lit('&'), Lit(' ')] + (Say(words) + rest)
    ensures ReadPieces(pieces, Some(word))
      == Then([Word(word), Operator("&&")] + AllWords(words), ReadPieces(rest, None))
  {
    ReadAndAnd(pieces, Say(words) + rest, Some(word));
    ReadSay(words, rest);
    Combine(ReadPieces(pieces, Some(word)), word, "&&", words, ReadPieces(Say(words) + rest, None),
      ReadPieces(rest, None));
  }

  // ----------------------------------------------------------------- the parts of the line

  lemma LitsAppend(a: string, b: string)
    ensures Lits(a + b) == Lits(a) + Lits(b)
  {
  }

  /** The text of words with a blank after each. */
  function Spaced(words: seq<string>): string {
    if words == [] then [] else words[0] + (" " + Spaced(words[1..]))
  }

  lemma {:induction false} SaySpaced(words: seq<string>)
    ensures Say(words) == Lits(Spaced(words))
  {
    if words == [] {
    } else {
      SaySpaced(words[1..]);
      LitsAppend(words[0], " " + Spaced(words[1..]));
      LitsAppend(" ", Spaced(words[1..]));
      assert Lits(" ") == [Lit(' ')];
    }
  }

  lemma LitsOf(s: string, head: string, words: seq<string>, rest: seq<Piece>)
    requires s == head + Spaced(words)
    ensures Lits(s) + rest == Lits(head) + (Say(words) + rest)
  {
    SaySpaced(words);
    LitsAppend(head, Spaced(words));
  }

  lemma Spaced1(a: string)
    ensures Spaced([a]) == a + " "
  {
    assert [a][1..] == [];
    assert " " + [] == " ";
  }

  lemma Spaced2(a: string, b: string)
    ensures Spaced([a, b]) == a + (" " + (b + " "))
  {
    assert [a, b][1..] == [b];
    Spaced1(b);
  }

  lemma Spaced3(a: string, b: string, c: string)
    ensures Spaced([a, b, c]) == a + (" " + (b + (" " + (c + " "))))
  {
    assert [a, b, c][1..] == [b, c];
    Spaced2(b, c);
  }

  lemma Spaced4(a: string, b: string, c: string, d: string)
    ensures Spaced([a, b, c, d]) == a + (" " + (b + (" " + (c + (" " + (d + " "))))))
  {
    assert [a, b, c, d][1..] == [b, c, d];
    Spaced3(b, c, d);
  }

  lemma Words1(a: string)
    ensures AllWords([a]) == [Word(a)]
  {
    assert [a][1..] == [];
  }

  lemma Words2(a: string, b: string)
    ensures AllWords([a, b]) == [Word(a), Word(b)]
  {
    assert [a, b][1..] == [b];
    Words1(b);
  }

  lemma Words3(a: string, b: string, c: string)
    ensures AllWords([a, b, c]) == [Word(a), Word(b), Word(c)]
  {
    assert [a, b, c][1..] == [b, c];
    Words2(b, c);
  }

  lemma Words4(a: string, b: string, c: string, d: string)
    ensures AllWords([a, b, c, d]) == [Word(a), Word(b), Word(c), Word(d)]
  {
    assert [a, b, c, d][1..] == [b, c, d];
    Words3(b, c, d);
  }

  lemma PlainTest()
    ensures IsPlainWord("if") && IsPlainWord("[") && IsPlainWord("-d") && IsPlainWord("/.git") && IsPlainWord("]")
  {
  }

  lemma PlainSetUp()
    ensures IsPlainWord("set") && IsPlainWord("-e") && IsPlainWord("mkdir") && IsPlainWord("-p")
    ensures IsPlainWord("then") && IsPlainWord("cd")
  {
  }

  lemma PlainGit()
    ensures IsPlainWord("git") && IsPlainWord("fetch") && IsPlainWord("origin") && IsPlainWord("checkout")
  {
  }

  lemma PlainReset()
    ensures IsPlainWord("reset") && IsPlainWord("--hard") && IsPlainWord("origin/")
  {
  }

  lemma PlainClone()
    ensures IsPlainWord("else") && IsPlainWord("clone") && IsPlainWord("--branch") && IsPlainWord("fi")
  {
  }

  lemma SemicolonLits()
    ensures Lits("; ") == [Lit(';'), Lit(' ')]
    ensures Lits(" && ") == [Lit(' '), Lit('&'), Lit('&'), Lit(' ')]
  {
  }

  lemma ReadNext3(s: string, a: string, b: string, c: string, rest: seq<Piece>, word: string)
    requires IsPlainWord(a) && IsPlainWord(b) && IsPlainWord(c) && s == "; " + Spaced([a, b, c])
    ensures ReadPieces(Lits(s) + rest, Some(word)) ==
      Then([Word(word), Operator(";"), Word(a), Word(b), Word(c)], ReadPieces(rest, None))
  {
    SemicolonLits();
    LitsOf(s, "; ", [a, b, c], rest);
    ReadNext([a, b, c], Lits(s) + rest, rest, word);
    Words3(a, b, c);
    assert [Word(word), Operator(";")] + [Word(a), Word(b), Word(c)]
      == [Word(word), Operator(";"), Word(a), Word(b), Word(c)];
  }

  lemma ReadNext2(s: string, a: string, b: string, rest: seq<Piece>, word: string)
    requires IsPlainWord(a) && IsPlainWord(b) && s == "; " + Spaced([a, b])
    ensures ReadPieces(Lits(s) + rest, Some(word))
      == Then([Word(word), Operator(";"), Word(a), Word(b)], ReadPieces(rest, None))
  {
    SemicolonLits();
    LitsOf(s, "; ", [a, b], rest);
    ReadNext([a, b], Lits(s) + rest, rest, word);
    Words2(a, b);
    assert [Word(word), Operator(";")] + [Word(a), Word(b)] == [Word(word), Operator(";"), Word(a), Word(b)];
  }

  lemma ReadNext4(s: string, a: string, b: string, c: string, d: string, rest: seq<Piece>, word: string)
    requires IsPlainWord(a) && IsPlainWord(b) && IsPlainWord(c) && IsPlainWord(d) && s == "; " + Spaced([a, b, c, d])
    ensures ReadPieces(Lits(s) + rest, Some(word)) ==
      Then([Word(word), Operator(";"), Word(a), Word(b), Word(c), Word(d)], ReadPieces(rest, None))
  {
    SemicolonLits();
    LitsOf(s, "; ", [a, b, c, d], rest);
    ReadNext([a, b, c, d], Lits(s) + rest, rest, word);
    Words4(a, b, c, d);
    assert [Word(word), Operator(";")] + [Word(a), Word(b), Word(c), Word(d)]
      == [Word(word), Operator(";"), Word(a), Word(b), Word(c), Word(d)];
  }

  lemma ReadAndThen2(s: string, a: string, b: string, rest: seq<Piece>, word: string)
    requires IsPlainWord(a) && IsPlainWord(b) && s == " && " + Spaced([a, b])
    ensures ReadPieces(Lits(s) + rest, Some(word))
      == Then([Word(word), Operator("&&"), Word(a), Word(b)], ReadPieces(rest, None))
  {
    SemicolonLits();
    LitsOf(s, " && ", [a, b], rest);
    ReadAndThen([a, b], Lits(s) + rest, rest, word);
    Words2(a, b);
    assert [Word(word), Operator("&&")] + [Word(a), Word(b)] == [Word(word), Operator("&&"), Word(a), Word(b)];
  }

  lemma ReadAndThen3(s: string, a: string, b: string, c: string, rest: seq<Piece>, word: string)
    requires IsPlainWord(a) && IsPlainWord(b) && IsPlainWord(c) && s == " && " + Spaced([a, b, c])
    ensures ReadPieces(Lits(s) + rest, Some(word)) ==
      Then([Word(word), Operator("&&"), Word(a), Word(b), Word(c)], ReadPieces(rest, None))
  {
    SemicolonLits();
    LitsOf(s, " && ", [a, b, c], rest);
    ReadAndThen([a, b, c], Lits(s) + rest, rest, word);
    Words3(a, b, c);
    assert [Word(word), Operator("&&")] + [Word(a), Word(b), Word(c)]
      == [Word(word), Operator("&&"), Word(a), Word(b), Word(c)];
  }

  /** Whole words and then the beginning of one. */
  lemma LitsThen(s: string, a: string, b: string, rest: seq<Piece>)
    requires s == a + b
    ensures Lits(s) + rest == Lits(a) + (Lits(b) + rest)
  {
    LitsAppend(a, b);
  }

  // ------------------------------------------------------------------- the line, part by part

  lemma ReadWordNext(s: string, a: string, b: string, c: string, rest: seq<Piece>)
    requires IsPlainWord(a) && IsPlainWord(b) && IsPlainWord(c) && s == a + ("; " + Spaced([b, c]))
    ensures ReadPieces(Lits(s) + rest, None) == Then([Word(a), Operator(";"), Word(b), Word(c)], ReadPieces(rest, None))
  {
    var last := "; " + Spaced([b, c]);
    LitsThen(s, a, last, rest);
    ReadLits(a, Lits(last) + rest, None);
    FirstWord(a);
    ReadNext2(last, b, c, rest, a);
  }

  lemma ReadWordsNext(s: string, a: string, b: string, c: string, d: string, rest: seq<Piece>)
    requires IsPlainWord(a) && IsPlainWord(b) && IsPlainWord(c) && IsPlainWord(d)
    requires s == Spaced([a]) + (b + ("; " + Spaced([c, d])))
    ensures ReadPieces(Lits(s) + rest, None)
      == Then([Word(a), Word(b), Operator(";"), Word(c), Word(d)], ReadPieces(rest, None))
  {
    var last := b + ("; " + Spaced([c, d]));
    LitsThen(s, Spaced([a]), last, rest);
    SaySpaced([a]);
    ReadSay([a], Lits(last) + rest);
    Words1(a);
    ReadWordNext(last, b, c, d, rest);
    Joined(Word(a), [Word(b), Operator(";"), Word(c), Word(d)], rest);
  }

  lemma Joined(a: Token, more: seq<Token>, rest: seq<Piece>)
    requires |more| == 4
    ensures Then([a], Then(more, ReadPieces(rest, None)))
      == Then([a, more[0], more[1], more[2], more[3]], ReadPieces(rest, None))
  {
    ThenThen([a], more, ReadPieces(rest, None));
    assert [a] + more == [a, more[0], more[1], more[2], more[3]];
  }

  lemma ReadSetUp(rest: seq<Piece>)
    ensures ReadPieces(Lits("set -e; mkdir -p ") + rest, None) ==
      Then([Word("set"), Word("-e"), Operator(";"), Word("mkdir"), Word("-p")], ReadPieces(rest, None))
  {
    PlainSetUp();
    Spaced1("set");
    Spaced2("mkdir", "-p");
    ReadWordsNext("set -e; mkdir -p ", "set", "-e", "mkdir", "-p", rest);
  }

  lemma ReadIf(path: string, rest: seq<Piece>)
    ensures ReadPieces(Lits("; if [ -d ") + rest, Some(path)) ==
      Then([Word(path), Operator(";"), Word("if"), Word("["), Word("-d")], ReadPieces(rest, None))
  {
    PlainTest();
    Spaced3("if", "[", "-d");
    ReadNext3("; if [ -d ", "if", "[", "-d", rest, path);
  }

  lemma ReadEndNext(s: string, end: string, a: string, b: string, c: string, word: string, rest: seq<Piece>)
    requires IsPlainWord(end) && IsPlainWord(a) && IsPlainWord(b) && IsPlainWord(c)
    requires s == end + (" " + (a + ("; " + Spaced([b, c]))))
    ensures ReadPieces(Lits(s) + rest, Some(word)) ==
      Then([Word(word + end), Word(a), Operator(";"), Word(b), Word(c)], ReadPieces(rest, None))
  {
    var last := a + ("; " + Spaced([b, c]));
    LitsThen(s, end, " " + last, rest);
    LitsThen(" " + last, " ", last, rest);
    ReadLits(end, Lits(" ") + (Lits(last) + rest), Some(word));
    ReadGap(Lits(" ") + (Lits(last) + rest), Lits(last) + rest, Some(word + end));
    ReadWordNext(last, a, b, c, rest);
    Joined(Word(word + end), [Word(a), Operator(";"), Word(b), Word(c)], rest);
  }

  lemma ReadThen(path: string, rest: seq<Piece>)
    ensures ReadPieces(Lits("/.git ]; then cd ") + rest, Some(path)) ==
      Then([Word(path + "/.git"), Word("]"), Operator(";"), Word("then"), Word("cd")], ReadPieces(rest, None))
  {
    PlainTest();
    PlainSetUp();
    Spaced2("then", "cd");
    ReadEndNext("/.git ]; then cd ", "/.git", "]", "then", "cd", path, rest);
  }

  lemma ReadFetch(path: string, rest: seq<Piece>)
    ensures ReadPieces(Lits(" && git fetch origin ") + rest, Some(path)) ==
      Then([Word(path), Operator("&&"), Word("git"), Word("fetch"), Word("origin")], ReadPieces(rest, None))
  {
    PlainGit();
    Spaced3("git", "fetch", "origin");
    ReadAndThen3(" && git fetch origin ", "git", "fetch", "origin", rest, path);
  }

  lemma ReadCheckout(branch: string, rest: seq<Piece>)
    ensures ReadPieces(Lits(" && git checkout ") + rest, Some(branch)) ==
      Then([Word(branch), Operator("&&"), Word("git"), Word("checkout")], ReadPieces(rest, None))
  {
    PlainGit();
    Spaced2("git", "checkout");
    ReadAndThen2(" && git checkout ", "git", "checkout", rest, branch);
  }

  lemma ReadAndBegin(s: string, a: string, b: string, c: string, d: string, rest: seq<Piece>, word: string)
    requires IsPlainWord(a) && IsPlainWord(b) && IsPlainWord(c) && IsPlainWord(d)
    requires s == " && " + Spaced([a, b, c]) + d
    ensures ReadPieces(Lits(s) + rest, Some(word)) ==
      Then([Word(word), Operator("&&"), Word(a), Word(b), Word(c)], ReadPieces(rest, Some(d)))
  {
    var first := " && " + Spaced([a, b, c]);
    LitsThen(s, first, d, rest);
    ReadAndThen3(first, a, b, c, Lits(d) + rest, word);
    ReadLits(d, rest, None);
    FirstWord(d);
  }

  lemma ReadReset(branch: string, rest: seq<Piece>)
    ensures ReadPieces(Lits(" && git reset --hard origin/") + rest, Some(branch)) ==
      Then([Word(branch), Operator("&&"), Word("git"), Word("reset"), Word("--hard")],
        ReadPieces(rest, Some("origin/")))
  {
    PlainGit();
    PlainReset();
    Spaced3("git", "reset", "--hard");
    ReadAndBegin(" && git reset --hard origin/", "git", "reset", "--hard", "origin/", rest, branch);
  }

  lemma ReadClone(word: string, rest: seq<Piece>)
    ensures ReadPieces(Lits("; else git clone --branch ") + rest, Some(word)) ==
      Then([Word(word), Operator(";"), Word("else"), Word("git"), Word("clone"), Word("--branch")],
        ReadPieces(rest, None))
  {
    PlainGit();
    PlainClone();
    Spaced4("else", "git", "clone", "--branch");
    ReadNext4("; else git clone --branch ", "else", "git", "clone", "--branch", rest, word);
  }

  lemma ReadLast(s: string, a: string, word: string)
    requires IsPlainWord(a) && s == "; " + a
    ensures ReadPieces(Lits(s), Some(word)) == Some([Word(word), Operator(";"), Word(a)])
  {
    SemicolonLits();
    LitsAppend("; ", a);
    assert Lits(a) + [] == Lits(a);
    ReadSemicolon(Lits(s), Lits(a), Some(word));
    ReadLits(a, [], None);
    FirstWord(a);
    assert Flush(Some(word)) + [Operator(";")] + [Word(a)] == [Word(word), Operator(";"), Word(a)];
  }

  lemma ReadFi(path: string)
    ensures ReadPieces(Lits("; fi"), Some(path)) == Some([Word(path), Operator(";"), Word("fi")])
  {
    PlainClone();
    assert "; fi" == "; " + "fi";
    ReadLast("; fi", "fi", path);
  }

  // ----------------------------------------------------------------------- the whole line

  lemma {:induction false} LineFills(l: Line)
    ensures Fill(Pieces(l)) == Sprintf(l)
  {
    match l
    case End(text) =>
      FillLits(text, []);
      assert Lits(text) + [] == Lits(text);
    case Part(text, value, rest) =>
      var more := [Arg(value)] + Pieces(rest);
      LineFills(rest);
      FillLits(text, more);
      assert more[1..] == Pieces(rest);
  }

  lemma LitsCons(s: string, rest: seq<Piece>)
    requires s != []
    ensures Lits(s) + rest == [Lit(s[0])] + (Lits(s[1..]) + rest)
  {
  }

  lemma HeadThenTail(s: string, rest: string)
    requires s != []
    ensures [s[0]] + (s[1..] + rest) == s + rest
  {
  }

  lemma FillOne(c: char, rest: seq<Piece>)
    ensures Fill([Lit(c)] + rest) == [c] + Fill(rest)
  {
    assert ([Lit(c)] + rest)[1..] == rest;
  }

  lemma {:induction false} FillLits(s: string, rest: seq<Piece>)
    ensures Fill(Lits(s) + rest) == s + Fill(rest)
    decreases |s|
  {
    if s == [] {
      assert Lits(s) + rest == rest;
    } else {
      LitsCons(s, rest);
      FillOne(s[0], Lits(s[1..]) + rest);
      FillLits(s[1..], rest);
      HeadThenTail(s, Fill(rest));
    }
  }

  /** Reading on from a value: the text after it, the next value, and what follows. */
  lemma ReadPart(l: Line, word: Option<string>, tokens: seq<Token>, next: Option<string>, said: string,
      more: seq<Token>)
    requires l.Part? && Extend(next, l.value) == Some(said) && ReadPieces(Pieces(l.rest), Some(said)) == Some(more)
    requires var after := [Arg(l.value)] + Pieces(l.rest);
      ReadPieces(Lits(l.text) + after, word) == Then(tokens, ReadPieces(after, next))
    ensures ReadPieces(Pieces(l), word) == Some(tokens + more)
  {
    ReadArg([Arg(l.value)] + Pieces(l.rest), l.value, Pieces(l.rest), next);
  }

  lemma ReadBlankPart(value: string, rest: Line, word: string, more: seq<Token>)
    requires ReadPieces(Pieces(rest), Some(value)) == Some(more)
    ensures ReadPieces(Pieces(Part(" ", value, rest)), Some(word)) == Some([Word(word)] + more)
  {
    var after := [Arg(value)] + Pieces(rest);
    FirstWord(value);
    ReadGap(Lits(" ") + after, after, Some(word));
    ReadPart(Part(" ", value, rest), Some(word), [Word(word)], None, value, more);
  }

  lemma ResetIsRead(path: string, branch: string, url: string)
    ensures ReadPieces(Pieces(Reset(path, branch, url)), Some(branch)) == Some(ResetMeaning(path, branch, url))
  {
    var l9 := End("; fi");
    var l8 := Part(" ", path, l9);
    var l7 := Part(" ", url, l8);
    var l6 := Part("; else git clone --branch ", branch, l7);
    var l5 := Part(" && git reset --hard origin/", branch, l6);
    var t9 := [Word(path), Operator(";"), Word("fi")];
    ReadFi(path);
    ReadBlankPart(path, l9, url, t9);
    ReadBlankPart(url, l8, branch, [Word(url)] + t9);
    var t7 := [Word(branch)] + ([Word(url)] + t9);
    FirstWord(branch);
    ReadClone("origin/" + branch, [Arg(branch)] + Pieces(l7));
    var c6 := [Word("origin/" + branch), Operator(";"), Word("else"), Word("git"), Word("clone"), Word("--branch")];
    ReadPart(l6, Some("origin/" + branch), c6, None, branch, t7);
    ReadReset(branch, [Arg(branch)] + Pieces(l6));
    ReadPart(l5, Some(branch), [Word(branch), Operator("&&"), Word("git"), Word("reset"), Word("--hard")],
      Some("origin/"), "origin/" + branch, c6 + t7);
  }

  lemma CheckoutIsRead(path: string, branch: string, url: string)
    ensures ReadPieces(Pieces(Checkout(path, branch, url)), None) == Some(Meaning(path, branch, url))
  {
    var l5, t5 := Reset(path, branch, url), ResetMeaning(path, branch, url);
    var l4 := Part(" && git checkout ", branch, l5);
    var l3 := Part(" && git fetch origin ", branch, l4);
    var l2 := Part("/.git ]; then cd ", path, l3);
    var l1 := Part("; if [ -d ", path, l2);
    FirstWord(path);
    FirstWord(branch);
    ResetIsRead(path, branch, url);
    ReadCheckout(branch, [Arg(branch)] + Pieces(l5));
    var t4 := [Word(branch), Operator("&&"), Word("git"), Word("checkout")];
    ReadPart(l4, Some(branch), t4, None, branch, t5);
    ReadFetch(path, [Arg(branch)] + Pieces(l4));
    var t3 := [Word(path), Operator("&&"), Word("git"), Word("fetch"), Word("origin")];
    ReadPart(l3, Some(path), t3, None, branch, t4 + t5);
    ReadThen(path, [Arg(path)] + Pieces(l3));
    var t2 := [Word(path + "/.git"), Word("]"), Operator(";"), Word("then"), Word("cd")];
    ReadPart(l2, Some(path), t2, None, path, t3 + (t4 + t5));
    ReadIf(path, [Arg(path)] + Pieces(l2));
    var t1 := [Word(path), Operator(";"), Word("if"), Word("["), Word("-d")];
    ReadPart(l1, Some(path), t1, None, path, t2 + (t3 + (t4 + t5)));
    ReadSetUp([Arg(path)] + Pieces(l1));
    ReadPart(Checkout(path, branch, url), None, [Word("set"), Word("-e"), Operator(";"), Word("mkdir"), Word("-p")],
      None, path, t1 + (t2 + (t3 + (t4 + t5))));
  }

  /**
   Whatever path, branch and address hold, the remote shell reads the checkout command as the
   same commands, with each value inside the one word it stands in.
   */
  lemma CheckoutMeansTheSame(path: string, branch: string, url: string)
    ensures Tokenize(Sprintf(Checkout(path, branch, url))) == Some(Meaning(path, branch, url))
  {
    CheckoutIsRead(path, branch, url);
    ArgumentsStayArguments(Pieces(Checkout(path, branch, url)), None);
    LineFills(Checkout(path, branch, url));
  }
}
