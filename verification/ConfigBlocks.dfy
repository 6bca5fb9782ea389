/** Splitting a FortiGate configuration into its edit ... next blocks
    (split_config_blocks in scripts/fortinet_audit_cli.py). */
module ConfigBlocks {
  import opened PyText

  /** A character matches a lower-case ASCII letter under re.IGNORECASE: the letter i is also matched by
      the dotted capital and the dotless small one. */
  predicate MatchesLetter(c: char, letter: char)
  {
    || c == letter
    || ('A' <= c <= 'Z' && (c as int) + 32 == letter as int)
    || (letter == 'i' && (c == '\U{130}' || c == '\U{131}'))
  }

  predicate MatchesWord(s: string, word: string) {
    |s| == |word| && forall i :: 0 <= i < |s| ==> MatchesLetter(s[i], word[i])
  }

  /** ^\s*edit\s+ */
  predicate IsEdit(line: string) {
    var r := LStrip(line);
    |r| > 4 && MatchesWord(r[..4], "edit") && IsSpace(r[4])
  }

  /** ^\s*next\s*$ */
  predicate IsNext(line: string) { MatchesWord(Strip(line), "next") }

  predicate Blank(s: string, from: nat, to: nat)
    requires to <= |s|
  {
    forall i :: from <= i < to ==> IsSpace(s[i])
  }

  /** Blanks, the word at position i, and then at least one blank. */
  predicate EditAt(line: string, i: nat) {
    && i + 5 <= |line|
    && Blank(line, 0, i)
    && MatchesLetter(line[i], 'e') && MatchesLetter(line[i + 1], 'd') && MatchesLetter(line[i + 2], 'i')
    && MatchesLetter(line[i + 3], 't')
    && IsSpace(line[i + 4])
  }

  /** Blanks, the word at position i, and nothing but blanks behind it. */
  predicate NextAt(line: string, i: nat) {
    && i + 4 <= |line|
    && Blank(line, 0, i)
    && MatchesLetter(line[i], 'n') && MatchesLetter(line[i + 1], 'e') && MatchesLetter(line[i + 2], 'x')
    && MatchesLetter(line[i + 3], 't')
    && Blank(line, i + 4, |line|)
  }

  lemma NoLetterIsBlank(c: char, letter: char)
    requires MatchesLetter(c, letter) && 'a' <= letter <= 'z'
    ensures !IsSpace(c)
  {
  }

  lemma {:induction false} LStripFrom(line: string, i: nat)
    requires i < |line| && Blank(line, 0, i) && !IsSpace(line[i])
    ensures LStrip(line) == line[i..]
    decreases i
  {
    if i > 0 {
      assert forall j :: 0 <= j < i - 1 ==> line[1..][j] == line[j + 1];
      LStripFrom(line[1..], i - 1);
    }
  }

  lemma {:induction false} RStripTo(s: string, n: nat)
    requires 0 < n <= |s| && Blank(s, n, |s|) && !IsSpace(s[n - 1])
    ensures RStrip(s) == s[..n]
    decreases |s|
  {
    if n < |s| {
      RStripTo(s[..|s| - 1], n);
      assert s[..|s| - 1][..n] == s[..n];
    } else {
      assert s[..n] == s;
    }
  }

  lemma LettersOf(s: string, word: string)
    requires |word| == 4
    ensures MatchesWord(s, word) <==>
            |s| == 4 && MatchesLetter(s[0], word[0]) && MatchesLetter(s[1], word[1]) && MatchesLetter(s[2], word[2]) &&
              MatchesLetter(s[3], word[3])
  {
  }

  lemma LeadingBlanks(line: string)
    ensures var k := |line| - |LStrip(line)|; LStrip(line) == line[k..] && Blank(line, 0, k)
  {
  }

  lemma EditIsAt(line: string)
    requires IsEdit(line)
    ensures EditAt(line, |line| - |LStrip(line)|)
  {
    var r, k := LStrip(line), |line| - |LStrip(line)|;
    LeadingBlanks(line);
    LettersOf(r[..4], "edit");
    assert line[k] == r[0] && line[k + 1] == r[1] && line[k + 2] == r[2] && line[k + 3] == r[3] && line[k + 4] == r[4];
  }

  lemma EditAtIs(line: string, i: nat)
    requires EditAt(line, i)
    ensures IsEdit(line)
  {
    NoLetterIsBlank(line[i], 'e');
    LStripFrom(line, i);
    LettersOf(line[i..][..4], "edit");
  }

  /** The pattern of an edit line, character by character. */
  lemma IsEditIff(line: string)
    ensures IsEdit(line) <==> exists i :: 0 <= i <= |line| && EditAt(line, i)
  {
    if IsEdit(line) {
      EditIsAt(line);
    }
    if i :| 0 <= i <= |line| && EditAt(line, i) {
      EditAtIs(line, i);
    }
  }

  lemma BlanksBehind(line: string, i: nat, n: nat)
    requires i + n <= |line| && Blank(line, i + n, |line|)
    ensures Blank(line[i..], n, |line| - i)
  {
  }

  lemma StrippedIs(line: string, i: nat)
    requires i + 4 <= |line| && Blank(line, 0, i) && Blank(line, i + 4, |line|)
    requires !IsSpace(line[i]) && !IsSpace(line[i + 3])
    ensures Strip(line) == line[i..i + 4]
  {
    LStripFrom(line, i);
    BlanksBehind(line, i, 4);
    RStripTo(line[i..], 4);
    SliceOf(line, i, 4);
  }

  lemma SliceOf(line: string, i: nat, n: nat)
    requires i + n <= |line|
    ensures line[i..][..n] == line[i..i + n]
  {
  }

  lemma TrailingBlanks(r: string)
    ensures RStrip(r) == r[..|RStrip(r)|] && Blank(r, |RStrip(r)|, |r|)
  {
  }

  lemma BlanksAround(line: string, i: nat, r: string, n: nat)
    requires i <= |line| && r == line[i..] && n <= |r| && Blank(r, n, |r|)
    ensures r[..n] == line[i..i + n] && Blank(line, i + n, |line|)
  {
    forall j | i + n <= j < |line| ensures IsSpace(line[j]) {
      assert r[j - i] == line[j];
    }
  }

  lemma NextIsAt(line: string)
    requires IsNext(line)
    ensures NextAt(line, |line| - |LStrip(line)|)
  {
    var r := LStrip(line);
    var i := |line| - |r|;
    LeadingBlanks(line);
    TrailingBlanks(r);
    LettersOf(RStrip(r), "next");
    BlanksAround(line, i, r, 4);
    FourOf(line, i, RStrip(r));
  }

  lemma FourOf(line: string, i: nat, word: string)
    requires i + 4 <= |line| && word == line[i..i + 4]
    ensures word[0] == line[i] && word[1] == line[i + 1] && word[2] == line[i + 2] && word[3] == line[i + 3]
  {
  }

  lemma NextAtIs(line: string, i: nat)
    requires NextAt(line, i)
    ensures IsNext(line)
  {
    NoLetterIsBlank(line[i], 'n');
    NoLetterIsBlank(line[i + 3], 't');
    StrippedIs(line, i);
    FourOf(line, i, line[i..i + 4]);
    LettersOf(line[i..i + 4], "next");
  }

  /** And of a next line. */
  lemma IsNextIff(line: string)
    ensures IsNext(line) <==> exists i :: 0 <= i <= |line| && NextAt(line, i)
  {
    if IsNext(line) {
      NextIsAt(line);
    }
    if i :| 0 <= i <= |line| && NextAt(line, i) {
      NextAtIs(line, i);
    }
  }

  /** Outside ASCII only the dotted capital and the dotless small i match, the letter i. */
  lemma OtherLettersMatch(c: char, letter: char)
    requires c >= '\U{80}' && 'a' <= letter <= 'z'
    ensures MatchesLetter(c, letter) <==> letter == 'i' && c in ['\U{130}', '\U{131}']
  {
  }

  /** On ASCII text a word matches in any mixture of cases. */
  lemma {:induction false} AsciiCaseDoesNotMatter(s: string, word: string)
    requires forall i :: 0 <= i < |s| ==> s[i] < '\U{80}'
    requires forall i :: 0 <= i < |word| ==> 'a' <= word[i] <= 'z'
    ensures MatchesWord(s, word) <==> AsciiLower(s) == word
    decreases |s|
  {
    if s != "" && word != "" {
      AsciiCaseDoesNotMatter(s[1..], word[1..]);
      assert AsciiLower(s)[1..] == AsciiLower(s[1..]) && word == [word[0]] + word[1..];
      assert AsciiLower(s)[0] == word[0] <==> MatchesLetter(s[0], word[0]);
      if MatchesWord(s[1..], word[1..]) && MatchesLetter(s[0], word[0]) {
        forall i | 0 <= i < |s| ensures MatchesLetter(s[i], word[i]) {
          assert i > 0 ==> s[i] == s[1..][i - 1] && word[i] == word[1..][i - 1];
        }
      }
      if MatchesWord(s, word) {
        assert forall i :: 0 <= i < |s| - 1 ==> s[1..][i] == s[i + 1] && word[1..][i] == word[i + 1];
      }
    }
  }

  datatype Kind = Edit | Next | Other

  datatype Line = Line(kind: Kind, text: string)

  lemma NotBoth(line: string)
    ensures !(IsEdit(line) && IsNext(line))
  {
    var r := LStrip(line);
    if IsEdit(line) {
      assert MatchesLetter(r[..4][0], 'e');
      assert Strip(line) != "" ==> Strip(line)[0] == r[0];
    }
  }

  /** The loop asks both questions of each line; no line answers yes to both. */
  function Tag(line: string): (r: Line)
    ensures r.text == line && (r.kind.Edit? <==> IsEdit(line)) && (r.kind.Next? <==> IsNext(line))
  {
    NotBoth(line);
    Line(if IsEdit(line) then Edit else if IsNext(line) then Next else Other, line)
  }

  function TagAll(lines: seq<string>): (r: seq<Line>)
    ensures |r| == |lines| && forall i :: 0 <= i < |r| ==> r[i] == Tag(lines[i])
  {
    if lines == [] then [] else [Tag(lines[0])] + TagAll(lines[1..])
  }

  type Block = seq<Line>

  /** The blocks the loop still produces, from its variables: the block under way (empty outside one). */
  function Blocks(lines: seq<Line>, cur: Block, inBlock: bool): seq<Block>
    decreases |lines|
  {
    if lines == [] then Flush(cur)
    else match lines[0].kind
      case Edit => Flush(cur) + Blocks(lines[1..], [lines[0]], true)
      case Next => Flush(if inBlock then cur + [lines[0]] else cur) + Blocks(lines[1..], [], false)
      case Other => Blocks(lines[1..], if inBlock then cur + [lines[0]] else cur, inBlock)
  }

  function Flush(cur: Block): seq<Block> { if cur != [] then [cur] else [] }

  function Texts(block: Block): seq<string> {
    if block == [] then [] else [block[0].text] + Texts(block[1..])
  }

  function JoinAll(blocks: seq<Block>): seq<string> {
    if blocks == [] then [] else [JoinLines(Texts(blocks[0]))] + JoinAll(blocks[1..])
  }

  lemma {:induction false} JoinAllAppend(a: seq<Block>, b: seq<Block>)
    ensures JoinAll(a + b) == JoinAll(a) + JoinAll(b)
  {
    if a == [] {
      assert a + b == b;
    } else {
      assert (a + b)[1..] == a[1..] + b;
      JoinAllAppend(a[1..], b);
    }
  }

  lemma {:induction false} TextsAppend(a: Block, b: Block)
    ensures Texts(a + b) == Texts(a) + Texts(b)
  {
    if a == [] {
      assert a + b == b;
    } else {
      assert (a + b)[1..] == a[1..] + b;
      TextsAppend(a[1..], b);
    }
  }

  function Emit(cur: Block): seq<string> { if cur != [] then [JoinLines(Texts(cur))] else [] }

  /** What one turn of the loop appends to the result. */
  lemma Turn(lines: seq<Line>, cur: Block, inBlock: bool)
    requires lines != []
    ensures var cur' := if inBlock then cur + [lines[0]] else cur;
            JoinAll(Blocks(lines, cur, inBlock)) ==
            match lines[0].kind
            case Edit => Emit(cur) + JoinAll(Blocks(lines[1..], [lines[0]], true))
            case Next => Emit(cur') + JoinAll(Blocks(lines[1..], [], false))
            case Other => JoinAll(Blocks(lines[1..], cur', inBlock))
  {
    var cur' := if inBlock then cur + [lines[0]] else cur;
    JoinAllAppend(Flush(cur), Blocks(lines[1..], [lines[0]], true));
    JoinAllAppend(Flush(cur'), Blocks(lines[1..], [], false));
  }

  /** One turn of the loop: what it appends, and the variables after it. */
  function Fed(line: Line, cur: Block, inBlock: bool): (seq<string>, Block, bool) {
    var kept := if inBlock then cur + [line] else cur;
    match line.kind
    case Edit => (Emit(cur), [line], true)
    case Next => (Emit(kept), [], false)
    case Other => ([], kept, inBlock)
  }

  function Output(lines: seq<Line>, cur: Block, inBlock: bool): seq<string>
    decreases |lines|
  {
    if lines == [] then Emit(cur)
    else
      var (out, cur', inBlock') := Fed(lines[0], cur, inBlock);
      out + Output(lines[1..], cur', inBlock')
  }

  lemma {:induction false} OutputIsBlocks(lines: seq<Line>, cur: Block, inBlock: bool)
    ensures Output(lines, cur, inBlock) == JoinAll(Blocks(lines, cur, inBlock))
    decreases |lines|
  {
    if lines != [] {
      Turn(lines, cur, inBlock);
      var (out, cur', inBlock') := Fed(lines[0], cur, inBlock);
      OutputIsBlocks(lines[1..], cur', inBlock');
    }
  }

  method SplitConfigBlocks(text: string) returns (blocks: seq<string>)
    ensures blocks == JoinAll(Blocks(TagAll(SplitLines(text)), [], false))
  {
    blocks := Collect(TagAll(SplitLines(text)));
  }

  lemma OutputStep(lines: seq<Line>, n: nat, cur: Block, inBlock: bool)
    requires n < |lines|
    ensures var (out, cur', inBlock') := Fed(lines[n], cur, inBlock);
            Output(lines[n..], cur, inBlock) == out + Output(lines[n + 1..], cur', inBlock')
  {
    assert lines[n..][0] == lines[n] && lines[n..][1..] == lines[n + 1..];
  }

  lemma Advance(blocks: seq<string>, lines: seq<Line>, n: nat, cur: Block, inBlock: bool)
    requires n < |lines|
    ensures var (out, cur', inBlock') := Fed(lines[n], cur, inBlock);
            blocks + Output(lines[n..], cur, inBlock) == (blocks + out) + Output(lines[n + 1..], cur', inBlock')
  {
    OutputStep(lines, n, cur, inBlock);
  }

  /** The body of the loop. */
  method Feed(line: Line, blocks: seq<string>, cur: Block, inBlock: bool)
      returns (blocks': seq<string>, cur': Block, inBlock': bool)
    requires !inBlock ==> cur == []
    ensures blocks' == blocks + Fed(line, cur, inBlock).0
    ensures cur' == Fed(line, cur, inBlock).1 && inBlock' == Fed(line, cur, inBlock).2
    ensures !inBlock' ==> cur' == []
  {
    blocks', cur', inBlock' := blocks, cur, inBlock;
    if line.kind.Edit? {
      if cur' != [] {
        blocks' := blocks' + [JoinLines(Texts(cur'))];
        cur' := [];
      }
      inBlock' := true;
    }
    if inBlock' {
      cur' := cur' + [line];
    }
    if line.kind.Next? {
      if cur' != [] {
        blocks' := blocks' + [JoinLines(Texts(cur'))];
      }
      cur' := [];
      inBlock' := false;
    }
  }

  method Collect(lines: seq<Line>) returns (blocks: seq<string>)
    ensures blocks == JoinAll(Blocks(lines, [], false))
  {
    OutputIsBlocks(lines, [], false);
    blocks := [];
    var cur: Block := [];
    var inBlock := false;
    var n := 0;
    assert lines[0..] == lines;
    while n < |lines|
      invariant 0 <= n <= |lines|
      invariant !inBlock ==> cur == []
      invariant Output(lines, [], false) == blocks + Output(lines[n..], cur, inBlock)
    {
      Advance(blocks, lines, n, cur, inBlock);
      blocks, cur, inBlock := Feed(lines[n], blocks, cur, inBlock);
      n := n + 1;
    }
    if cur != [] {
      blocks := blocks + [JoinLines(Texts(cur))];
    }
  }

  // ---------- the parser undoes the printer ----------

  /** A flat block: an edit line, lines that are neither edit nor next, and a next line. */
  predicate IsBlock(block: Block) {
    && |block| >= 2
    && block[0].kind.Edit?
    && block[|block| - 1].kind.Next?
    && forall i :: 0 < i < |block| - 1 ==> block[i].kind.Other?
  }

  predicate NoEdit(lines: seq<Line>) { forall i :: 0 <= i < |lines| ==> !lines[i].kind.Edit? }

  /** Blocks with other lines before each, and after the last. */
  function Print(gaps: seq<seq<Line>>, blocks: seq<Block>, tail: seq<Line>): seq<Line>
    requires |gaps| == |blocks|
  {
    if blocks == [] then tail else gaps[0] + blocks[0] + Print(gaps[1..], blocks[1..], tail)
  }

  lemma {:induction false} GapIsSkipped(gap: seq<Line>, rest: seq<Line>)
    requires NoEdit(gap)
    ensures Blocks(gap + rest, [], false) == Blocks(rest, [], false)
  {
    if gap == [] {
      assert gap + rest == rest;
    } else {
      assert (gap + rest)[0] == gap[0] && (gap + rest)[1..] == gap[1..] + rest;
      GapIsSkipped(gap[1..], rest);
    }
  }

  lemma {:induction false} BodyIsTaken(cur: Block, body: seq<Line>, end: Line, rest: seq<Line>)
    requires cur != [] && end.kind.Next? && forall i :: 0 <= i < |body| ==> body[i].kind.Other?
    ensures Blocks(body + [end] + rest, cur, true) == [cur + body + [end]] + Blocks(rest, [], false)
    decreases |body|
  {
    var lines := body + [end] + rest;
    if body == [] {
      assert lines[0] == end && lines[1..] == rest;
      assert cur + body + [end] == cur + [end];
    } else {
      assert lines[0] == body[0] && lines[1..] == body[1..] + [end] + rest;
      BodyIsTaken(cur + [body[0]], body[1..], end, rest);
      assert cur + [body[0]] + body[1..] + [end] == cur + body + [end];
    }
  }

  lemma BlockIsTaken(block: Block, rest: seq<Line>)
    requires IsBlock(block)
    ensures Blocks(block + rest, [], false) == [block] + Blocks(rest, [], false)
  {
    var body, end := block[1..|block| - 1], block[|block| - 1];
    assert (block + rest)[0] == block[0] && (block + rest)[1..] == body + [end] + rest;
    BodyIsTaken([block[0]], body, end, rest);
    assert [block[0]] + body + [end] == block;
  }

  lemma {:induction false} BlocksOfPrint(gaps: seq<seq<Line>>, blocks: seq<Block>, tail: seq<Line>)
    requires |gaps| == |blocks| && NoEdit(tail)
    requires forall i :: 0 <= i < |blocks| ==> IsBlock(blocks[i]) && NoEdit(gaps[i])
    ensures Blocks(Print(gaps, blocks, tail), [], false) == blocks
    decreases |blocks|
  {
    if blocks == [] {
      assert tail + [] == tail;
      GapIsSkipped(tail, []);
    } else {
      var rest := Print(gaps[1..], blocks[1..], tail);
      assert gaps[0] + blocks[0] + rest == gaps[0] + (blocks[0] + rest);
      GapIsSkipped(gaps[0], blocks[0] + rest);
      BlockIsTaken(blocks[0], rest);
      BlocksOfPrint(gaps[1..], blocks[1..], tail);
    }
  }

  /** Lines of a text: classified as the parser does, and without a line end inside. */
  ghost predicate AsRead(lines: seq<Line>) {
    forall i :: 0 <= i < |lines| ==> lines[i] == Tag(lines[i].text) && OneLine(lines[i].text)
  }

  lemma {:induction false} TagAllOfTexts(lines: seq<Line>)
    requires AsRead(lines)
    ensures TagAll(Texts(lines)) == lines && forall i :: 0 <= i < |Texts(lines)| ==> OneLine(Texts(lines)[i])
  {
    if lines != [] {
      TagAllOfTexts(lines[1..]);
    }
  }

  /** On the text of a printed configuration, the parser returns exactly the blocks, in order, whatever
      other lines stand before, between and after them. */
  lemma ParserUndoesPrinter(gaps: seq<seq<Line>>, blocks: seq<Block>, tail: seq<Line>)
    requires |gaps| == |blocks| && NoEdit(tail) && AsRead(Print(gaps, blocks, tail))
    requires forall i :: 0 <= i < |blocks| ==> IsBlock(blocks[i]) && NoEdit(gaps[i])
    ensures JoinAll(Blocks(TagAll(SplitLines(Unlines(Texts(Print(gaps, blocks, tail))))), [], false)) == JoinAll(blocks)
  {
    TagAllOfTexts(Print(gaps, blocks, tail));
    SplitLinesOfUnlines(Texts(Print(gaps, blocks, tail)));
    BlocksOfPrint(gaps, blocks, tail);
  }

  // ---------- on any lines ----------

  /** Configurations can be split at any next line and parsed in parts. */
  lemma {:induction false} DistributesAtNext(a: seq<Line>, b: seq<Line>, cur: Block, inBlock: bool)
    requires a != [] && a[|a| - 1].kind.Next?
    ensures Blocks(a + b, cur, inBlock) == Blocks(a, cur, inBlock) + Blocks(b, [], false)
    decreases |a|
  {
    assert (a + b)[0] == a[0] && (a + b)[1..] == a[1..] + b;
    if |a| > 1 {
      if a[0].kind.Edit? {
        DistributesAtNext(a[1..], b, [a[0]], true);
      } else if a[0].kind.Next? {
        DistributesAtNext(a[1..], b, [], false);
      } else {
        DistributesAtNext(a[1..], b, if inBlock then cur + [a[0]] else cur, inBlock);
      }
    } else {
      assert a[1..] == [] && a[1..] + b == b;
    }
  }

  function Flatten(blocks: seq<Block>): seq<Line> {
    if blocks == [] then [] else blocks[0] + Flatten(blocks[1..])
  }

  lemma FlattenCons(a: Block, rest: seq<Block>)
    ensures Flatten(Flush(a) + rest) == a + Flatten(rest)
  {
    if a != [] {
      assert ([a] + rest)[1..] == rest;
    } else {
      assert [] + rest == rest;
    }
  }

  /** The lines inside a block: from an edit line up to and including the next line after it. */
  function Inside(lines: seq<Line>, inBlock: bool): seq<Line> {
    if lines == [] then []
    else
      var now := inBlock || lines[0].kind.Edit?;
      (if now then [lines[0]] else []) + Inside(lines[1..], now && !lines[0].kind.Next?)
  }

  /** On any input, well-formed or not: every line inside a block is kept, once and in order, and no other line is. */
  lemma {:induction false} KeepsEveryInsideLineOnce(lines: seq<Line>, cur: Block, inBlock: bool)
    requires cur != [] ==> inBlock
    ensures Flatten(Blocks(lines, cur, inBlock)) == cur + Inside(lines, inBlock)
    decreases |lines|
  {
    if lines == [] {
      FlattenCons(cur, []);
      assert Blocks(lines, cur, inBlock) == Flush(cur);
    } else {
      var cur' := if inBlock then cur + [lines[0]] else cur;
      if lines[0].kind.Edit? {
        KeepsEveryInsideLineOnce(lines[1..], [lines[0]], true);
        FlattenCons(cur, Blocks(lines[1..], [lines[0]], true));
      } else if lines[0].kind.Next? {
        KeepsEveryInsideLineOnce(lines[1..], [], false);
        FlattenCons(cur', Blocks(lines[1..], [], false));
      } else {
        KeepsEveryInsideLineOnce(lines[1..], cur', inBlock);
      }
    }
  }

  /** A piece the parser returns: it starts with its only edit line, and a next line can only end it. */
  predicate IsPiece(block: Block) {
    && block != []
    && block[0].kind.Edit?
    && (forall i :: 0 < i < |block| ==> !block[i].kind.Edit?)
    && (forall i :: 0 <= i < |block| - 1 ==> !block[i].kind.Next?)
  }

  /** And on any input every returned block is such a piece. */
  lemma {:induction false} ReturnsPieces(lines: seq<Line>, cur: Block, inBlock: bool)
    requires if inBlock then IsPiece(cur) && !cur[|cur| - 1].kind.Next? else cur == []
    ensures forall b :: b in Blocks(lines, cur, inBlock) ==> IsPiece(b)
    decreases |lines|
  {
    if lines != [] {
      if lines[0].kind.Edit? {
        ReturnsPieces(lines[1..], [lines[0]], true);
      } else if lines[0].kind.Next? {
        ReturnsPieces(lines[1..], [], false);
      } else {
        ReturnsPieces(lines[1..], if inBlock then cur + [lines[0]] else cur, inBlock);
      }
    }
  }
}
