/**
 * Text pulled out of a PDF (src/lib/pdf-client.ts): the word list the speed
 * reader plays, and the paragraphs of the Word export, grouped into lines by
 * the vertical position of each text item. The PDF parser is not modelled:
 * a page is given as its text items, in the order the parser (or the sort
 * in `pdfToDocx`) yields them.
 */
module TextExtraction {
  import opened Strings

  // ---------------------------------------------------------------------
  // extractTextFromPDF
  // ---------------------------------------------------------------------

  /** `replace(/\s+/g, " ")`: every run of white space becomes one space. */
  function Collapse(s: string): (r: string)
    ensures r == [] <==> s == []
    ensures r != [] ==> (IsSpace(r[0]) <==> IsSpace(s[0]))
    ensures Spaced(r)
    ensures Blank(r) <==> Blank(s)
  {
    if s == [] then []
    else
      var rest := Collapse(s[1..]);
      assert Blank(s) <==> IsSpace(s[0]) && Blank(s[1..]) by {
        assert forall j :: 0 <= j < |s| - 1 ==> s[1..][j] == s[j + 1];
      }
      if IsSpace(s[0]) && |s| > 1 && IsSpace(s[1]) then rest
      else
        var r := (if IsSpace(s[0]) then [' '] else [s[0]]) + rest;
        assert Blank(r) <==> IsSpace(r[0]) && Blank(rest) by {
          assert forall j :: 0 <= j < |rest| ==> rest[j] == r[j + 1];
        }
        r
  }

  /** A word without white space is left as it is. */
  lemma {:induction false} CollapseNoSpace(x: string)
    requires NoSpace(x)
    ensures Collapse(x) == x
  {
    if x != [] {
      assert NoSpace(x[1..]) by {
        assert forall j :: 0 <= j < |x| - 1 ==> x[1..][j] == x[j + 1];
      }
      CollapseNoSpace(x[1..]);
      assert x == [x[0]] + x[1..];
    }
  }

  /** A non-empty run of white space becomes one space. */
  lemma {:induction false} CollapseBlank(w: string)
    requires w != [] && Blank(w)
    ensures Collapse(w) == " "
  {
    if |w| > 1 {
      assert Blank(w[1..]) by {
        assert forall j :: 0 <= j < |w| - 1 ==> w[1..][j] == w[j + 1];
      }
      CollapseBlank(w[1..]);
    }
  }

  /**
   * Collapsing works piece by piece wherever the cut does not fall inside a
   * run of white space; with the two lemmas above this fixes the result of
   * every string, one run at a time.
   */
  lemma {:induction false} CollapseAppend(a: string, b: string)
    requires a == [] || b == [] || !IsSpace(a[|a| - 1]) || !IsSpace(b[0])
    ensures Collapse(a + b) == Collapse(a) + Collapse(b)
  {
    if a == [] {
      assert a + b == b;
    } else {
      var ab, tail := a + b, a[1..];
      assert ab[0] == a[0] && ab[1..] == tail + b;
      CollapseAppend(tail, b);
      var head := if IsSpace(a[0]) then [' '] else [a[0]];
      assert head + (Collapse(tail) + Collapse(b)) == (head + Collapse(tail)) + Collapse(b);
      if |a| == 1 {
        assert tail == [];
        if b != [] {
          assert ab[1] == b[0];
        }
      } else {
        assert ab[1] == a[1];
      }
    }
  }

  /** Two words with one space between them keep that space. */
  lemma SpaceBetweenWords(x: string, y: string)
    requires NoSpace(x) && NoSpace(y)
    ensures Collapse(x + " " + y) == x + " " + y
  {
    CollapseNoSpace(x);
    CollapseNoSpace(y);
    CollapseBlank(" ");
    CollapseAppend(x, " ");
    CollapseAppend(x + " ", y);
  }

  /** The only white space is the plain space, and no two of them are adjacent. */
  predicate Spaced(t: string) {
    (forall i :: 0 <= i < |t| && IsSpace(t[i]) ==> t[i] == ' ') &&
    (forall i :: 0 <= i < |t| - 1 && t[i] == ' ' ==> t[i + 1] != ' ')
  }

  /** `Spaced`, and neither end is a space: what `split(" ")` cuts into non-empty words. */
  predicate Clean(t: string) {
    Spaced(t) && (t == [] || (t[0] != ' ' && t[|t| - 1] != ' '))
  }

  /** A word: no white space at all. */
  predicate NoSpace(w: string) {
    forall i :: 0 <= i < |w| ==> !IsSpace(w[i])
  }

  /** The characters of `s` that are not white space, in order. */
  function NonSpace(s: string): (r: string)
    ensures NoSpace(r) && |r| <= |s|
  {
    if s == [] then []
    else if IsSpace(s[0]) then NonSpace(s[1..])
    else [s[0]] + NonSpace(s[1..])
  }

  /** The words run together. */
  function Flatten(words: seq<string>): string {
    if words == [] then [] else words[0] + Flatten(words[1..])
  }

  /** The chain `replace(/\s+/g, " ").trim().split(" ")`. */
  function Normalise(s: string): (words: seq<string>)
    ensures |words| >= 1
  {
    Split(Trim(Collapse(s)), ' ')
  }

  /** One page's text: its items' strings joined with single spaces. */
  function PageTexts(pages: seq<seq<string>>): (texts: seq<string>)
    ensures |texts| == |pages|
    ensures forall i :: 0 <= i < |pages| ==> texts[i] == Join(pages[i], " ")
  {
    seq(|pages|, i requires 0 <= i < |pages| => Join(pages[i], " "))
  }

  /** Everything the document says: the pages' texts joined with single spaces. */
  function AllText(pages: seq<seq<string>>): string {
    Join(PageTexts(pages), " ")
  }

  /**
   * `extractTextFromPDF`, given every page's text items: never an empty
   * list, every word free of white space, and no character other than
   * white space lost or added.
   */
  method ExtractText(pages: seq<seq<string>>) returns (words: seq<string>)
    ensures words == Normalise(AllText(pages))
    ensures |words| >= 1 && forall k :: 0 <= k < |words| ==> NoSpace(words[k])
    ensures Flatten(words) == NonSpace(AllText(pages))
  {
    var textArray: seq<string> := [];
    for i := 0 to |pages|
      invariant textArray == PageTexts(pages[..i])
    {
      textArray := textArray + [Join(pages[i], " ")];
    }
    assert pages[..|pages|] == pages;
    words := Split(Trim(Collapse(Join(textArray, " "))), ' ');
    NormaliseWords(AllText(pages));
    NormaliseKeepsText(AllText(pages));
  }

  /** The words, joined back with spaces, are the text with its white space tidied. */
  lemma NormaliseJoin(s: string)
    ensures Join(Normalise(s), " ") == Trim(Collapse(s))
  {
    SplitJoin(Trim(Collapse(s)), ' ');
  }

  /**
   * A blank text gives exactly one empty word; any other text gives only
   * non-empty words. No word holds white space.
   */
  lemma NormaliseWords(s: string)
    ensures Blank(s) <==> Normalise(s) == [""]
    ensures forall k :: 0 <= k < |Normalise(s)| ==> NoSpace(Normalise(s)[k])
    ensures !Blank(s) ==> forall k :: 0 <= k < |Normalise(s)| ==> Normalise(s)[k] != []
  {
    var t := Trim(Collapse(s));
    TrimClean(Collapse(s));
    if t == [] {
      assert Normalise(s) == [""];
    } else {
      SplitClean(t);
      assert Normalise(s)[0] != [];
    }
  }

  /** Normalising keeps every character that is not white space, in order. */
  lemma NormaliseKeepsText(s: string)
    ensures Flatten(Normalise(s)) == NonSpace(s)
  {
    var c := Collapse(s);
    TrimClean(c);
    SplitFlatten(Trim(c));
    TrimKeepsText(c);
    CollapseKeepsText(s);
  }

  /** Trimming a `Spaced` string leaves a `Clean` one. */
  lemma TrimClean(s: string)
    requires Spaced(s)
    ensures Clean(Trim(s))
  {
    var t := s[LeadingSpaces(s)..];
    var r := t[..|t| - TrailingSpaces(t)];
    assert Trim(s) == r;
    assert forall i :: 0 <= i < |r| ==> r[i] == s[LeadingSpaces(s) + i];
  }

  /** Splitting a non-empty `Clean` string on spaces gives non-empty words free of white space. */
  lemma {:induction false} SplitClean(t: string)
    requires t != [] && Clean(t)
    ensures forall k :: 0 <= k < |Split(t, ' ')| ==> Split(t, ' ')[k] != [] && NoSpace(Split(t, ' ')[k])
    decreases |t|
  {
    var parts := Split(t, ' ');
    var rest := Split(t[1..], ' ');
    assert !IsSpace(t[0]);
    if |t| == 1 {
      assert t[1..] == [] && rest == [""];
      assert parts == [[t[0]] + ""];
    } else if t[1] == ' ' {
      var u := t[2..];
      assert t[1..][1..] == u;
      assert rest == [""] + Split(u, ' ');
      assert rest[0] == "" && rest[1..] == Split(u, ' ');
      assert forall i :: 0 <= i < |u| ==> u[i] == t[i + 2];
      SplitClean(u);
      assert parts == [[t[0]] + ""] + Split(u, ' ');
    } else {
      var u := t[1..];
      assert forall i :: 0 <= i < |u| ==> u[i] == t[i + 1];
      SplitClean(u);
      assert forall i :: 0 <= i < |rest[0]| + 1 ==> ([t[0]] + rest[0])[i] == if i == 0 then t[0] else rest[0][i - 1];
    }
  }

  /** Splitting a string whose only white space is the plain space, then running the parts together, drops just the spaces. */
  lemma {:induction false} SplitFlatten(t: string)
    requires forall i :: 0 <= i < |t| && IsSpace(t[i]) ==> t[i] == ' '
    ensures Flatten(Split(t, ' ')) == NonSpace(t)
    decreases |t|
  {
    if t == [] {
      assert Flatten([""]) == "" + Flatten([]);
    } else {
      var rest := Split(t[1..], ' ');
      assert forall i :: 0 <= i < |t[1..]| ==> t[1..][i] == t[i + 1];
      SplitFlatten(t[1..]);
      var parts := Split(t, ' ');
      if t[0] == ' ' {
        assert parts[1..] == rest;
        assert Flatten(parts) == "" + Flatten(rest);
      } else {
        assert parts[0] == [t[0]] + rest[0] && parts[1..] == rest[1..];
        assert Flatten(rest) == rest[0] + Flatten(rest[1..]);
        Assoc([t[0]], rest[0], Flatten(rest[1..]));
      }
    }
  }

  lemma {:induction false} NonSpaceAppend(a: string, b: string)
    ensures NonSpace(a + b) == NonSpace(a) + NonSpace(b)
    decreases |a|
  {
    if a == [] {
      assert a + b == b;
    } else {
      assert (a + b)[1..] == a[1..] + b;
      NonSpaceAppend(a[1..], b);
      if !IsSpace(a[0]) {
        Assoc([a[0]], NonSpace(a[1..]), NonSpace(b));
      }
    }
  }

  lemma {:induction false} NonSpaceBlank(s: string)
    requires Blank(s)
    ensures NonSpace(s) == []
    decreases |s|
  {
    if s != [] {
      NonSpaceBlank(s[1..]);
    }
  }

  /** `trim` removes white space only. */
  lemma TrimKeepsText(s: string)
    ensures NonSpace(Trim(s)) == NonSpace(s)
  {
    var n := LeadingSpaces(s);
    var t := s[n..];
    var m := |t| - TrailingSpaces(t);
    var r := t[..m];
    assert Trim(s) == r;
    assert Blank(s[..n]);
    assert Blank(t[m..]);
    calc {
      NonSpace(s);
      { assert s == s[..n] + t; }
      NonSpace(s[..n] + t);
      { NonSpaceAppend(s[..n], t); NonSpaceBlank(s[..n]); }
      NonSpace(t);
      { assert t == r + t[m..]; NonSpaceAppend(r, t[m..]); NonSpaceBlank(t[m..]); }
      NonSpace(r);
    }
  }

  /** Collapsing runs of white space removes white space only. */
  lemma {:induction false} CollapseKeepsText(s: string)
    ensures NonSpace(Collapse(s)) == NonSpace(s)
    decreases |s|
  {
    if s != [] {
      CollapseKeepsText(s[1..]);
      var rest := Collapse(s[1..]);
      if IsSpace(s[0]) && !(|s| > 1 && IsSpace(s[1])) {
        assert ([' '] + rest)[1..] == rest;
      }
    }
  }

  // ---------------------------------------------------------------------
  // pdfToDocx
  // ---------------------------------------------------------------------

  /** A text item: its string and the y of its baseline. */
  datatype Item = Item(str: string, y: real)

  /** A paragraph of the Word document: a line of text, or the break run put between pages. */
  datatype Paragraph = Line(text: string) | PageBreak

  function Abs(d: real): (r: real)
    ensures r >= 0.0 && (r == d || r == -d)
  {
    if d < 0.0 then -d else d
  }

  /**
   * Whether an item at `y` opens a new line after one at `lastY`: it sits
   * more than 10 units away. `-1` marks "no item yet", so an item right after
   * one whose y is exactly -1 never opens a line.
   */
  predicate Breaks(lastY: real, y: real) {
    lastY != -1.0 && Abs(y - lastY) > 10.0
  }

  function Last<T>(s: seq<T>): T
    requires s != []
  {
    s[|s| - 1]
  }

  /**
   * The items of a page cut into lines: an item joins the line of the item
   * before it unless it `Breaks` after that one.
   */
  function Lines(items: seq<Item>): (lines: seq<seq<Item>>)
    ensures lines == [] <==> items == []
  {
    if items == [] then []
    else
      var before := Lines(items[..|items| - 1]);
      var x := Last(items);
      if |items| == 1 || Breaks(items[|items| - 2].y, x.y) then before + [[x]]
      else before[..|before| - 1] + [Last(before) + [x]]
  }

  /** The lines run together again. */
  function Joined(lines: seq<seq<Item>>): seq<Item> {
    if lines == [] then [] else Joined(lines[..|lines| - 1]) + Last(lines)
  }

  /** Cutting into lines loses, adds and reorders nothing. */
  lemma {:induction false} LinesJoined(items: seq<Item>)
    ensures Joined(Lines(items)) == items
    decreases |items|
  {
    if items != [] {
      var init := items[..|items| - 1];
      var before := Lines(init);
      var x := Last(items);
      LinesJoined(init);
      assert init + [x] == items;
      var lines := Lines(items);
      if |items| == 1 || Breaks(items[|items| - 2].y, x.y) {
        assert lines[..|lines| - 1] == before;
      } else {
        var n := |before|;
        assert lines[..n - 1] == before[..n - 1];
        Assoc(Joined(before[..n - 1]), before[n - 1], [x]);
      }
    }
  }

  /** No line is empty, and the last line ends with the last item. */
  lemma {:induction false} LinesNonEmpty(items: seq<Item>)
    ensures forall k :: 0 <= k < |Lines(items)| ==> Lines(items)[k] != []
    ensures items != [] ==> Last(Last(Lines(items))) == Last(items)
    decreases |items|
  {
    if items != [] {
      LinesNonEmpty(items[..|items| - 1]);
    }
  }

  /** One more item: it opens a line of its own, or ends the last line, as it breaks or not. */
  lemma LinesStep(items: seq<Item>, x: Item)
    requires items != []
    ensures var lines := Lines(items);
      lines != [] &&
      (Breaks(Last(items).y, x.y) ==> Lines(items + [x]) == lines + [[x]]) &&
      (!Breaks(Last(items).y, x.y) ==> Lines(items + [x]) == lines[..|lines| - 1] + [Last(lines) + [x]])
  {
    var next := items + [x];
    assert next[..|next| - 1] == items && next[|next| - 2] == Last(items);
  }

  /** No item of the line breaks after the one before it. */
  predicate Unbroken(line: seq<Item>) {
    forall j :: 1 <= j < |line| ==> !Breaks(line[j - 1].y, line[j].y)
  }

  lemma UnbrokenSnoc(line: seq<Item>, x: Item)
    requires line != [] && Unbroken(line) && !Breaks(Last(line).y, x.y)
    ensures Unbroken(line + [x])
  {
    var longer := line + [x];
    forall j | 1 <= j < |longer| ensures !Breaks(longer[j - 1].y, longer[j].y) {
      if j < |line| {
        assert longer[j - 1] == line[j - 1] && longer[j] == line[j];
      }
    }
  }

  /** Within a line no item breaks after the one before it. */
  lemma {:induction false} LinesUnbroken(items: seq<Item>)
    ensures forall k :: 0 <= k < |Lines(items)| ==> Unbroken(Lines(items)[k])
    decreases |items|
  {
    if |items| > 1 {
      var init := items[..|items| - 1];
      var x := Last(items);
      LinesUnbroken(init);
      LinesNonEmpty(init);
      assert init + [x] == items;
      LinesStep(init, x);
      var lines := Lines(init);
      if !Breaks(Last(init).y, x.y) {
        UnbrokenSnoc(Last(lines), x);
      }
    } else if |items| == 1 {
      assert items[..0] == [];
    }
  }

  /** Every line after the first opens with an item that breaks after the last item of the line before. */
  lemma {:induction false} LinesBroken(items: seq<Item>)
    ensures LinesNonEmptyAll(Lines(items))
    ensures forall k, m :: 0 <= k && m == k + 1 && m < |Lines(items)| ==>
      Breaks(Last(Lines(items)[k]).y, Lines(items)[m][0].y)
    decreases |items|
  {
    LinesNonEmpty(items);
    if |items| > 1 {
      var init := items[..|items| - 1];
      LinesBroken(init);
      LinesNonEmpty(init);
      assert init + [Last(items)] == items;
      LinesStep(init, Last(items));
    }
  }

  predicate LinesNonEmptyAll(lines: seq<seq<Item>>) {
    forall k :: 0 <= k < |lines| ==> lines[k] != []
  }

  /** The text a line is written as: each item's string followed by a space. */
  function Piece(item: Item): string {
    item.str + " "
  }

  function LineText(line: seq<Item>): string {
    ConcatMap(Piece, line)
  }

  /** The paragraph for a line: none when its text trims to nothing. */
  function ParagraphFor(text: string): (ps: seq<Paragraph>)
    ensures ps == [] <==> Blank(text)
    ensures ps != [] ==> ps == [Line(text)]
  {
    if Trim(text) != [] then [Line(text)] else []
  }

  /** The paragraphs of a page's lines, blank lines dropped. */
  function Kept(lines: seq<seq<Item>>): seq<Paragraph> {
    if lines == [] then []
    else Kept(lines[..|lines| - 1]) + ParagraphFor(LineText(Last(lines)))
  }

  /** What is kept is one line of text per non-blank line, in order, and nothing else. */
  lemma {:induction false} KeptNotBlank(lines: seq<seq<Item>>)
    ensures |Kept(lines)| <= |lines|
    ensures forall k :: 0 <= k < |Kept(lines)| ==> Kept(lines)[k].Line? && !Blank(Kept(lines)[k].text)
    decreases |lines|
  {
    if lines != [] {
      KeptNotBlank(lines[..|lines| - 1]);
    }
  }

  lemma KeptSnoc(lines: seq<seq<Item>>, line: seq<Item>)
    ensures Kept(lines + [line]) == Kept(lines) + ParagraphFor(LineText(line))
  {
    assert (lines + [line])[..|lines|] == lines;
  }

  lemma LineTextSnoc(line: seq<Item>, x: Item)
    ensures LineText(line + [x]) == LineText(line) + Piece(x)
  {
    assert (line + [x])[..|line|] == line;
  }

  /** The whole document: each page's paragraphs, with a break between consecutive pages. */
  function DocxParagraphs(pages: seq<seq<Item>>): seq<Paragraph> {
    if pages == [] then []
    else if |pages| == 1 then Kept(Lines(pages[0]))
    else DocxParagraphs(pages[..|pages| - 1]) + [PageBreak] + Kept(Lines(Last(pages)))
  }

  /**
   * The state of the `forEach` after the items `seen`: `lastY` is the y of
   * the last of them (-1 before the first), `children` holds a paragraph for
   * each closed line `done` that is not blank, and `current` is the text of
   * the open line `line`.
   */
  ghost predicate Grouped(seen: seq<Item>, lastY: real, current: string, children: seq<Paragraph>,
                          done: seq<seq<Item>>, line: seq<Item>)
  {
    lastY == (if seen == [] then -1.0 else Last(seen).y) &&
    (seen == [] ==> current == "" && children == [] && done == [] && line == []) &&
    (seen != [] ==> Lines(seen) == done + [line] && line != []) &&
    children == Kept(done) && current == LineText(line)
  }

  /** An item that breaks after the last one closes the open line and opens its own. */
  lemma ClosesLine(seen: seq<Item>, item: Item, current: string, children: seq<Paragraph>,
                   done: seq<seq<Item>>, line: seq<Item>)
    requires seen != [] && Grouped(seen, Last(seen).y, current, children, done, line)
    requires Breaks(Last(seen).y, item.y)
    ensures Grouped(seen + [item], item.y, item.str + " ", children + ParagraphFor(current), done + [line], [item])
  {
    LinesStep(seen, item);
    KeptSnoc(done, line);
    ConcatMapSingle(Piece, item);
    assert (seen + [item])[..|seen|] == seen;
  }

  /** Any other item joins the open line. */
  lemma ExtendsLine(seen: seq<Item>, item: Item, lastY: real, current: string, children: seq<Paragraph>,
                    done: seq<seq<Item>>, line: seq<Item>)
    requires Grouped(seen, lastY, current, children, done, line)
    requires !Breaks(lastY, item.y)
    ensures seen == [] ==> Grouped(seen + [item], item.y, current + item.str + " ", children, [], [item])
    ensures seen != [] ==> Grouped(seen + [item], item.y, current + item.str + " ", children, done, line + [item])
  {
    LineTextSnoc(line, item);
    Assoc(current, item.str, " ");
    if seen == [] {
      assert seen + [item] == [item];
      assert line + [item] == [item];
    } else {
      LinesStep(seen, item);
      assert (done + [line])[..|done|] == done && Last(done + [line]) == line;
      assert (done + [line + [item]]) == done + [line + [item]];
    }
  }

  /** The `forEach` callback: one item joins the open line, or closes it and opens the next. */
  method AddItem(item: Item, lastY: real, current: string, children: seq<Paragraph>,
                 ghost seen: seq<Item>, ghost done: seq<seq<Item>>, ghost line: seq<Item>)
    returns (lastY': real, current': string, children': seq<Paragraph>,
             ghost done': seq<seq<Item>>, ghost line': seq<Item>)
    requires Grouped(seen, lastY, current, children, done, line)
    ensures Grouped(seen + [item], lastY', current', children', done', line')
  {
    children' := children;
    if lastY != -1.0 && Abs(item.y - lastY) > 10.0 {
      ClosesLine(seen, item, current, children, done, line);
      if Trim(current) != [] {
        children' := children + [Line(current)];
      }
      current' := "";
      assert "" + item.str + " " == item.str + " ";
      done', line' := done + [line], [item];
    } else {
      ExtendsLine(seen, item, lastY, current, children, done, line);
      current' := current;
      done', line' := if seen == [] then [] else done, if seen == [] then [item] else line + [item];
    }
    current' := current' + item.str + " ";
    lastY' := item.y;
  }

  /** The `forEach` over one page's items, and the push of the last line. */
  method GroupPage(items: seq<Item>) returns (children: seq<Paragraph>)
    ensures children == Kept(Lines(items))
  {
    children := [];
    var lastY := -1.0;
    var current := "";
    ghost var done: seq<seq<Item>> := [];
    ghost var line: seq<Item> := [];
    for k := 0 to |items|
      invariant Grouped(items[..k], lastY, current, children, done, line)
    {
      assert items[..k + 1] == items[..k] + [items[k]];
      lastY, current, children, done, line := AddItem(items[k], lastY, current, children, items[..k], done, line);
    }
    assert items[..|items|] == items;
    if |items| > 0 {
      KeptSnoc(done, line);
    }
    if Trim(current) != [] {
      children := children + [Line(current)];
    }
  }

  /** `pdfToDocx`'s loop over the pages, given every page's items. */
  method PdfToDocx(pages: seq<seq<Item>>) returns (children: seq<Paragraph>)
    ensures children == DocxParagraphs(pages)
  {
    children := [];
    for i := 0 to |pages|
      invariant children == DocxParagraphs(pages[..i]) + (if 0 < i < |pages| then [PageBreak] else [])
    {
      var page := GroupPage(pages[i]);
      assert pages[..i + 1][..i] == pages[..i] && Last(pages[..i + 1]) == pages[i];
      children := children + page;
      if i < |pages| - 1 {
        children := children + [PageBreak];
      }
    }
    assert pages[..|pages|] == pages;
  }

  /** The number of page breaks. */
  function BreakCount(ps: seq<Paragraph>): nat {
    if ps == [] then 0
    else BreakCount(ps[..|ps| - 1]) + (if Last(ps).PageBreak? then 1 else 0)
  }

  lemma {:induction false} BreakCountAppend(a: seq<Paragraph>, b: seq<Paragraph>)
    ensures BreakCount(a + b) == BreakCount(a) + BreakCount(b)
    decreases |b|
  {
    if b == [] {
      assert a + b == a;
    } else {
      assert (a + b)[..|a + b| - 1] == a + b[..|b| - 1];
      BreakCountAppend(a, b[..|b| - 1]);
    }
  }

  lemma {:induction false} NoBreaksInText(ps: seq<Paragraph>)
    requires forall k :: 0 <= k < |ps| ==> ps[k].Line?
    ensures BreakCount(ps) == 0
    decreases |ps|
  {
    if ps != [] {
      NoBreaksInText(ps[..|ps| - 1]);
    }
  }

  /** An n-page document holds exactly n - 1 page breaks. */
  lemma {:induction false} DocxPageBreaks(pages: seq<seq<Item>>)
    ensures BreakCount(DocxParagraphs(pages)) == if pages == [] then 0 else |pages| - 1
    decreases |pages|
  {
    if pages != [] {
      var last := Kept(Lines(Last(pages)));
      KeptNotBlank(Lines(Last(pages)));
      NoBreaksInText(last);
      if |pages| == 1 {
        assert DocxParagraphs(pages) == last;
      } else {
        var init := DocxParagraphs(pages[..|pages| - 1]);
        assert DocxParagraphs(pages) == init + [PageBreak] + last;
        DocxPageBreaks(pages[..|pages| - 1]);
        BreakCountAppend(init, [PageBreak]);
        BreakCountAppend(init + [PageBreak], last);
        assert BreakCount([PageBreak]) == 1 by {
          assert [PageBreak][..0] == [];
        }
      }
    }
  }

  /** Every paragraph other than the page breaks is a line whose text is not blank. */
  lemma {:induction false} DocxLinesNotBlank(pages: seq<seq<Item>>)
    ensures forall k :: 0 <= k < |DocxParagraphs(pages)| && DocxParagraphs(pages)[k].Line? ==>
      !Blank(DocxParagraphs(pages)[k].text)
    decreases |pages|
  {
    if pages != [] {
      KeptNotBlank(Lines(Last(pages)));
    }
    if |pages| > 1 {
      DocxLinesNotBlank(pages[..|pages| - 1]);
    }
  }
}
