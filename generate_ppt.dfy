/**
 * The slide generator scripts/generate_ppt.py: `parse_sections` turns a
 * Markdown outline into sections (a `### ` heading and its `- ` bullets),
 * `add_bullets` lays a section's bullets out in a slide's text frame, and
 * `main` renders the first three sections.  Reading the Markdown file and
 * saving the presentation are left to the caller.
 */
module GeneratePpt {
  import opened Wrappers
  import opened Strings

  const HeadingMark: string := "### "
  const BulletMark: string := "- "

  /** `sections[:3]`: how many sections become slides. */
  const MaxSlides: nat := 3

  /**
   * The characters `str.splitlines` breaks at.  A `"\r\n"` pair is one break there
   * and two here; the empty piece between them is a blank line, which the parser
   * ignores (`BlankLineIgnored`).
   */
  const LineBreaks: set<char> := {'\n', '\r', 11 as char, 12 as char, 28 as char, 29 as char, 30 as char,
                                  133 as char, 8232 as char, 8233 as char}

  datatype Section = Section(title: string, bullets: seq<string>)

  /** What the loop makes of one stripped line. */
  datatype Line = Heading(title: string) | Bullet(text: string) | Other

  /**
   * `line = raw.strip()`, then the two `startswith` tests: a heading is titled by
   * `line.replace('### ', '').strip()` (every `"### "` removed, not just the
   * first), a bullet is `line[2:]`, anything else is skipped.
   */
  function Classify(raw: string): (l: Line)
    ensures l.Heading? <==> StartsWith(Trim(raw), HeadingMark)
    ensures l.Heading? ==> l.title == Trim(RemoveAll(Trim(raw), HeadingMark))
    ensures l.Bullet? <==> !StartsWith(Trim(raw), HeadingMark) && StartsWith(Trim(raw), BulletMark)
    ensures l.Bullet? ==> Trim(raw) == BulletMark + l.text
  {
    var line := Trim(raw);
    if StartsWith(line, HeadingMark) then Heading(Trim(RemoveAll(line, HeadingMark)))
    else if StartsWith(line, BulletMark) then
      assert line == line[..|BulletMark|] + line[|BulletMark|..];
      Bullet(line[|BulletMark|..])
    else Other
  }

  function Classified(lines: seq<string>): (ls: seq<Line>)
    ensures |ls| == |lines|
    ensures forall k | 0 <= k < |lines| :: ls[k] == Classify(lines[k])
  {
    seq(|lines|, k requires 0 <= k < |lines| => Classify(lines[k]))
  }

  /** What the loop holds between two lines: the closed sections, `current_title`, `current_bullets`. */
  datatype Parser = Parser(sections: seq<Section>, title: Option<string>, bullets: seq<string>)

  /** The sections once the open one, if any, is closed. */
  function Close(p: Parser): seq<Section> {
    p.sections + (if p.title.Some? then [Section(p.title.value, p.bullets)] else [])
  }

  /** One iteration of the loop. */
  function Step(l: Line, p: Parser): Parser {
    match l
    case Heading(t) => Parser(Close(p), Some(t), [])
    case Bullet(b) => p.(bullets := p.bullets + [b])
    case Other => p
  }

  /** The rest of the loop over `ls`, then the final `if current_title is not None`. */
  function Parse(ls: seq<Line>, p: Parser): seq<Section>
    decreases |ls|
  {
    if ls == [] then Close(p) else Parse(ls[1..], Step(ls[0], p))
  }

  const Start: Parser := Parser([], None, [])

  function SplitLines(text: string): seq<string> { Split(text, LineBreaks) }

  /** `parse_sections(md_text)`. */
  function Sections(mdText: string): seq<Section> { Parse(Classified(SplitLines(mdText)), Start) }

  /** The loop as the script writes it. */
  method ParseSections(mdText: string) returns (sections: seq<Section>)
    ensures sections == Sections(mdText)
  {
    var lines := SplitLines(mdText);
    ghost var ls := Classified(lines);
    sections := [];
    var currentTitle: Option<string> := None;
    var currentBullets: seq<string> := [];
    for k := 0 to |lines|
      invariant Parse(ls[k..], Parser(sections, currentTitle, currentBullets)) == Sections(mdText)
    {
      var line := Trim(lines[k]);
      ClassifyTrimmed(lines[k], line);
      var sections', currentTitle', currentBullets' := sections, currentTitle, currentBullets;
      if StartsWith(line, HeadingMark) {
        if currentTitle.Some? {
          sections' := sections + [Section(currentTitle.value, currentBullets)];
        }
        currentTitle' := Some(Trim(RemoveAll(line, HeadingMark)));
        currentBullets' := [];
      } else if StartsWith(line, BulletMark) {
        currentBullets' := currentBullets + [line[|BulletMark|..]];
      }
      ParseStep(ls, k, Parser(sections, currentTitle, currentBullets), Parser(sections', currentTitle', currentBullets'));
      sections, currentTitle, currentBullets := sections', currentTitle', currentBullets';
    }
    if currentTitle.Some? {
      sections := sections + [Section(currentTitle.value, currentBullets)];
    }
  }

  /** How the loop body's tests on the stripped line classify the raw line. */
  lemma ClassifyTrimmed(raw: string, line: string)
    requires line == Trim(raw)
    ensures StartsWith(line, HeadingMark) ==> Classify(raw) == Heading(Trim(RemoveAll(line, HeadingMark)))
    ensures !StartsWith(line, HeadingMark) && StartsWith(line, BulletMark) ==> Classify(raw) == Bullet(line[|BulletMark|..])
    ensures !StartsWith(line, HeadingMark) && !StartsWith(line, BulletMark) ==> Classify(raw) == Other
  {
  }

  /** One iteration moves the parse on by one line. */
  lemma ParseStep(ls: seq<Line>, k: nat, p: Parser, p': Parser)
    requires k < |ls| && p' == Step(ls[k], p)
    ensures Parse(ls[k..], p) == Parse(ls[k + 1..], p')
  {
    assert ls[k..][1..] == ls[k + 1..];
  }

  // ---------------------------------------------------------------------------
  // What the parser promises
  // ---------------------------------------------------------------------------

  /** The number of heading lines. */
  function CountHeadings(ls: seq<Line>): nat {
    if ls == [] then 0 else (if ls[0].Heading? then 1 else 0) + CountHeadings(ls[1..])
  }

  /** The titles of the heading lines, in document order. */
  function HeadingTitles(ls: seq<Line>): seq<string> {
    if ls == [] then [] else (if ls[0].Heading? then [ls[0].title] else []) + HeadingTitles(ls[1..])
  }

  /** The bullets of the bullet lines, in document order. */
  function Bullets(ls: seq<Line>): seq<string> {
    if ls == [] then [] else (if ls[0].Bullet? then [ls[0].text] else []) + Bullets(ls[1..])
  }

  function Titles(sections: seq<Section>): seq<string> {
    if sections == [] then [] else [sections[0].title] + Titles(sections[1..])
  }

  lemma {:induction false} TitlesAppend(a: seq<Section>, b: seq<Section>)
    ensures Titles(a + b) == Titles(a) + Titles(b)
    decreases |a|
  {
    if a == [] {
      assert a + b == b;
    } else {
      assert (a + b)[0] == a[0] && (a + b)[1..] == a[1..] + b;
      TitlesAppend(a[1..], b);
    }
  }

  /** One line adds a title to the sections-to-be exactly when it is a heading. */
  lemma StepTitles(l: Line, p: Parser)
    ensures Titles(Close(Step(l, p))) == Titles(Close(p)) + (if l.Heading? then [l.title] else [])
    ensures |Close(Step(l, p))| == |Close(p)| + (if l.Heading? then 1 else 0)
  {
    match l
    case Heading(t) =>
      TitlesAppend(Close(p), [Section(t, [])]);
    case Bullet(b) =>
      if p.title.Some? {
        TitlesAppend(p.sections, [Section(p.title.value, p.bullets)]);
        TitlesAppend(p.sections, [Section(p.title.value, p.bullets + [b])]);
      }
    case Other =>
      assert Titles(Close(p)) + [] == Titles(Close(p));
  }

  /** Each heading adds one section titled by it, in order; the open section is closed at the end. */
  lemma {:induction false} ParseTitles(ls: seq<Line>, p: Parser)
    ensures Titles(Parse(ls, p)) == Titles(Close(p)) + HeadingTitles(ls)
    ensures |Parse(ls, p)| == |Close(p)| + CountHeadings(ls)
    decreases |ls|
  {
    if ls == [] {
      assert Titles(Close(p)) + [] == Titles(Close(p));
    } else {
      var p' := Step(ls[0], p);
      ParseTitles(ls[1..], p');
      StepTitles(ls[0], p);
      var h := if ls[0].Heading? then [ls[0].title] else [];
      assert HeadingTitles(ls) == h + HeadingTitles(ls[1..]);
      assert Titles(Close(p')) + HeadingTitles(ls[1..]) == Titles(Close(p)) + (h + HeadingTitles(ls[1..]));
    }
  }

  /**
   * `parse_sections` yields exactly one section per `### ` line, titled by that
   * line, in document order; a text without headings yields none.
   */
  lemma SectionsFollowHeadings(mdText: string)
    ensures var ls := Classified(SplitLines(mdText));
      |Sections(mdText)| == CountHeadings(ls) &&
      Titles(Sections(mdText)) == HeadingTitles(ls) &&
      (CountHeadings(ls) == 0 ==> Sections(mdText) == [])
  {
    ParseTitles(Classified(SplitLines(mdText)), Start);
  }

  /** Closed sections are never touched again. */
  lemma {:induction false} ParseKeepsClosed(ls: seq<Line>, p: Parser)
    ensures Parse(ls, p) == p.sections + Parse(ls, p.(sections := []))
    decreases |ls|
  {
    if ls != [] {
      var q := p.(sections := []);
      ParseKeepsClosed(ls[1..], Step(ls[0], p));
      ParseKeepsClosed(ls[1..], Step(ls[0], q));
      match ls[0]
      case Heading(t) =>
        assert Step(ls[0], p).sections == p.sections + Step(ls[0], q).sections;
      case Bullet(b) =>
      case Other =>
    }
  }

  /** A run of lines without a heading adds its bullets to the open section and closes nothing. */
  lemma {:induction false} ParseBody(body: seq<Line>, p: Parser)
    requires CountHeadings(body) == 0
    ensures Parse(body, p) == Close(p.(bullets := p.bullets + Bullets(body)))
    decreases |body|
  {
    if body == [] {
      assert p.bullets + [] == p.bullets;
    } else {
      assert !body[0].Heading? && CountHeadings(body[1..]) == 0;
      var p' := Step(body[0], p);
      ParseBody(body[1..], p');
      if body[0].Bullet? {
        assert p' == p.(bullets := p.bullets + [body[0].text]);
        assert Bullets(body) == [body[0].text] + Bullets(body[1..]);
        assert p.bullets + Bullets(body) == p'.bullets + Bullets(body[1..]);
      } else {
        assert p' == p && Bullets(body) == Bullets(body[1..]);
      }
    }
  }

  /** A heading followed by lines without one is one section: that heading's title and those lines' bullets. */
  lemma OneSection(title: string, body: seq<Line>)
    requires CountHeadings(body) == 0
    ensures Parse([Heading(title)] + body, Start) == [Section(title, Bullets(body))]
  {
    var ls := [Heading(title)] + body;
    assert ls[0] == Heading(title) && ls[1..] == body;
    var p := Parser([], Some(title), []);
    assert Step(Heading(title), Start) == p;
    ParseBody(body, p);
    assert [] + Bullets(body) == Bullets(body);
  }

  /** Lines before the first heading, bullets included, produce nothing. */
  lemma PreambleDropped(pre: seq<Line>)
    requires CountHeadings(pre) == 0
    ensures Parse(pre, Start) == []
  {
    ParseBody(pre, Start);
  }

  /** Parsing splits at any heading line: what comes before is closed first. */
  lemma {:induction false} ParseAppend(a: seq<Line>, b: seq<Line>, p: Parser)
    requires b != [] && b[0].Heading?
    ensures Parse(a + b, p) == Parse(b, Parser(Parse(a, p), None, []))
    decreases |a|
  {
    if a == [] {
      assert a + b == b;
      var q := Parser(Close(p), None, []);
      assert Close(q) == Close(p);
      assert Step(b[0], p) == Step(b[0], q);
    } else {
      assert (a + b)[0] == a[0] && (a + b)[1..] == a[1..] + b;
      ParseAppend(a[1..], b, Step(a[0], p));
    }
  }

  /**
   * The sections of a concatenation at a heading line are the sections of each
   * part; with `OneSection` and `PreambleDropped` this fixes every section's title
   * and bullets.
   */
  lemma SectionsAppend(a: seq<Line>, b: seq<Line>)
    requires b != [] && b[0].Heading?
    ensures Parse(a + b, Start) == Parse(a, Start) + Parse(b, Start)
  {
    ParseAppend(a, b, Start);
    ParseKeepsClosed(b, Parser(Parse(a, Start), None, []));
  }

  /** A blank line changes nothing, so the extra pieces a `"\r\n"` break leaves are harmless. */
  lemma BlankLineIgnored(raw: string)
    requires Trim(raw) == []
    ensures Classify(raw) == Other
  {
  }

  // ---------------------------------------------------------------------------
  // add_bullets and main
  // ---------------------------------------------------------------------------

  datatype Paragraph = Paragraph(text: string, level: nat)

  /** The first bullet at level 0, every other at level 1. */
  function Layout(lines: seq<string>): seq<Paragraph>
    requires lines != []
  {
    [Paragraph(lines[0], 0)] + seq(|lines| - 1, k requires 0 <= k < |lines| - 1 => Paragraph(lines[k + 1], 1))
  }

  function Texts(ps: seq<Paragraph>): seq<string> {
    seq(|ps|, k requires 0 <= k < |ps| => ps[k].text)
  }

  /** Every bullet appears once, in order, at level 0 for the first and 1 for the rest. */
  lemma LayoutRoundTrip(lines: seq<string>)
    requires lines != []
    ensures Texts(Layout(lines)) == lines
    ensures forall k | 0 <= k < |lines| :: Layout(lines)[k].level == if k == 0 then 0 else 1
  {
  }

  /** A slide placeholder's text frame: it always holds at least one paragraph. */
  class TextFrame {
    var paragraphs: seq<Paragraph>

    ghost predicate Valid()
      reads this
    {
      |paragraphs| >= 1
    }

    /** A fresh frame holds one empty paragraph. */
    constructor ()
      ensures Valid() && paragraphs == [Paragraph("", 0)]
    {
      paragraphs := [Paragraph("", 0)];
    }

    /** `clear()`: keeps only the first paragraph, emptied; its level stays. */
    method Clear()
      requires Valid()
      modifies this
      ensures Valid() && paragraphs == [old(paragraphs)[0].(text := "")]
    {
      paragraphs := [paragraphs[0].(text := "")];
    }

    /** `add_paragraph()`: a new empty paragraph at the end; returns its index. */
    method AddParagraph() returns (k: nat)
      requires Valid()
      modifies this
      ensures Valid() && paragraphs == old(paragraphs) + [Paragraph("", 0)] && k == |old(paragraphs)|
    {
      k := |paragraphs|;
      paragraphs := paragraphs + [Paragraph("", 0)];
    }

    /** `p.text = text; p.level = level` on paragraph `k`. */
    method SetParagraph(k: nat, text: string, level: nat)
      requires Valid() && k < |paragraphs|
      modifies this
      ensures Valid() && paragraphs == old(paragraphs)[k := Paragraph(text, level)]
    {
      paragraphs := paragraphs[k := Paragraph(text, level)];
    }

    /** `add_bullets(text_frame, lines)`. */
    method AddBullets(lines: seq<string>)
      requires Valid()
      modifies this
      ensures Valid()
      ensures lines == [] ==> paragraphs == [old(paragraphs)[0].(text := "")]
      ensures lines != [] ==> paragraphs == Layout(lines)
    {
      Clear();
      if lines == [] {
        return;
      }
      SetParagraph(0, lines[0], 0);
      for i := 1 to |lines|
        invariant Valid() && paragraphs == Layout(lines[..i])
      {
        var k := AddParagraph();
        SetParagraph(k, lines[i], 1);
        assert Layout(lines[..i + 1]) == Layout(lines[..i]) + [Paragraph(lines[i], 1)];
      }
      assert lines[..|lines|] == lines;
    }
  }

  datatype Slide = Slide(title: string, body: seq<Paragraph>)

  /** The slide a section becomes on a fresh "Title and Content" layout. */
  function SlideOf(s: Section): Slide {
    Slide(s.title, if s.bullets == [] then [Paragraph("", 0)] else Layout(s.bullets))
  }

  function Min(a: nat, b: nat): nat { if a <= b then a else b }

  /** The loop of `main`: a slide for each of the first three sections, in order. */
  method BuildSlides(sections: seq<Section>) returns (slides: seq<Slide>)
    ensures |slides| == Min(MaxSlides, |sections|)
    ensures forall k | 0 <= k < |slides| :: slides[k] == SlideOf(sections[k])
  {
    slides := [];
    var chosen := sections[..Min(MaxSlides, |sections|)];
    for k := 0 to |chosen|
      invariant |slides| == k
      invariant forall j | 0 <= j < k :: slides[j] == SlideOf(sections[j])
    {
      var frame := new TextFrame();
      frame.AddBullets(chosen[k].bullets);
      slides := slides + [Slide(chosen[k].title, frame.paragraphs)];
    }
  }
}
