/**
 * The line classifier of the notes simplifier (doSimplify in js/Script.js).
 * The model's reply is split on newlines; each trimmed, non-blank line is
 * classified on its own by the first rule that matches, and unmatched lines
 * are dropped. When nothing matched, the raw reply is shown with its
 * newlines turned into <br> tags.
 */
module Notes {
  import opened Wrappers
  import opened Text

  /** One recognised line of the reply. */
  datatype Item =
    | Topic(name: string)
    | PointsHeader
    | TermsHeader
    | Bullet(point: string)
    | Term(term: string, definition: string)

  /** What the notes panel shows: the recognised items in order, or the raw reply. */
  datatype View = Structured(items: seq<Item>) | RawText(html: string)

  const TopicLabel: string := "TOPIC:"
  const PointsLabel: string := "KEY POINTS:"
  const TermsLabel: string := "KEY TERMS:"
  const BulletMark: char := '•'
  const TermSeparator: string := " — "

  /**
   * The term and definition of a term line: the trimmed text before the first
   * separator, and the trimmed text between the first and the second one (or
   * the end of the line). Neither field contains the separator.
   */
  function TermFields(l: string): (r: Item)
    requires Contains(l, TermSeparator)
    ensures r.Term? && Trimmed(r.term) && Trimmed(r.definition)
    ensures !Contains(r.term, TermSeparator) && !Contains(r.definition, TermSeparator)
  {
    var i := IndexOf(l, TermSeparator).value;
    var rest := l[i + |TermSeparator|..];
    var definition := match IndexOf(rest, TermSeparator)
      case None => rest
      case Some(j) => rest[..j];
    BeforeFirst(l, TermSeparator);
    TrimKeepsAbsent(l[..i], TermSeparator);
    assert IndexOf(definition, TermSeparator).None? by {
      if IndexOf(rest, TermSeparator).Some? { BeforeFirst(rest, TermSeparator); }
    }
    TrimKeepsAbsent(definition, TermSeparator);
    Term(Trim(l[..i]), Trim(definition))
  }

  /**
   * The loop body of doSimplify for one line of the reply. The rules in
   * priority order: blank lines give nothing; a TOPIC: line is a topic whatever
   * else it contains; then the two exact headers; then a line starting with the
   * bullet mark; then a line containing the separator; everything else is dropped.
   */
  function Classify(line: string): (r: Option<Item>)
    ensures Trim(line) == [] ==> r == None
    ensures StartsWith(Trim(line), TopicLabel) ==> r.Some? && r.value.Topic?
    ensures !StartsWith(Trim(line), TopicLabel) && Trim(line) == PointsLabel ==> r == Some(PointsHeader)
    ensures !StartsWith(Trim(line), TopicLabel) && Trim(line) == TermsLabel ==> r == Some(TermsHeader)
    ensures r.Some? && r.value.Bullet? <==>
      Trim(line) != [] && !StartsWith(Trim(line), TopicLabel) && Trim(line) != PointsLabel &&
      Trim(line) != TermsLabel && Trim(line)[0] == BulletMark
    ensures r.Some? && r.value.Term? <==>
      Trim(line) != [] && !StartsWith(Trim(line), TopicLabel) && Trim(line) != PointsLabel &&
      Trim(line) != TermsLabel && Trim(line)[0] != BulletMark && Contains(Trim(line), TermSeparator)
    ensures r.None? <==>
      Trim(line) == [] || (!StartsWith(Trim(line), TopicLabel) && Trim(line) != PointsLabel &&
      Trim(line) != TermsLabel && Trim(line)[0] != BulletMark && !Contains(Trim(line), TermSeparator))
  {
    var l := Trim(line);
    if l == [] then None
    else if StartsWith(l, TopicLabel) then Some(Topic(Trim(ReplaceFirst(l, TopicLabel, ""))))
    else if l == PointsLabel then Some(PointsHeader)
    else if l == TermsLabel then Some(TermsHeader)
    else if l[0] == BulletMark then Some(Bullet(Trim(l[1..])))
    else if Contains(l, TermSeparator) then
      var parts := Split(l, TermSeparator);
      Some(Term(Trim(parts[0]), Trim(parts[1])))
    else None
  }

  /** The topic is the text after the label, trimmed. */
  lemma TopicName(line: string)
    requires StartsWith(Trim(line), TopicLabel)
    ensures Classify(line) == Some(Topic(Trim(Trim(line)[|TopicLabel|..])))
  {
    var l := Trim(line);
    assert ReplaceFirst(l, TopicLabel, "") == l[|TopicLabel|..];
  }

  /** The bullet text is the line without its mark, trimmed. */
  lemma BulletPoint(line: string)
    requires Classify(line).Some? && Classify(line).value.Bullet?
    ensures Classify(line).value.point == Trim(Trim(line)[1..])
  {
  }

  /** A term line yields the texts before the first separator and between the first and second. */
  lemma TermLine(line: string)
    requires Classify(line).Some? && Classify(line).value.Term?
    ensures Contains(Trim(line), TermSeparator) && Classify(line).value == TermFields(Trim(line))
  {
    var l := Trim(line);
    assert l != [] && !StartsWith(l, TopicLabel) && l != PointsLabel && l != TermsLabel &&
      l[0] != BulletMark && Contains(l, TermSeparator);
    var i := IndexOf(l, TermSeparator).value;
    var rest := l[i + |TermSeparator|..];
    assert Split(l, TermSeparator) == [l[..i]] + Split(rest, TermSeparator);
  }

  /** What the doSimplify loop accumulates for `lines` when each line is read by `classify`. */
  function Collect(classify: string -> Option<Item>, lines: seq<string>): seq<Item>
  {
    if lines == [] then []
    else
      var last := match classify(lines[|lines| - 1]) case None => [] case Some(item) => [item];
      Collect(classify, lines[..|lines| - 1]) + last
  }

  /** The items of a sequence of reply lines, in line order: at most one per line, each read from one of them. */
  function Items(lines: seq<string>): (r: seq<Item>)
    ensures |r| <= |lines|
    ensures forall k :: 0 <= k < |r| ==> exists i :: 0 <= i < |lines| && Classify(lines[i]) == Some(r[k])
  {
    CollectFrom(Classify, lines);
    Collect(Classify, lines)
  }

  /**
   * What doSimplify shows for a reply: the items of its lines, or, exactly when
   * no line is recognised, the raw reply with a <br> for each newline.
   */
  function Parse(text: string): (v: View)
    ensures v.RawText? <==> NoneRecognised(Classify, Split(text, "\n"))
    ensures v.RawText? ==> v.html == LineBreaksToBr(text)
    ensures v.Structured? ==> v.items == Items(Split(text, "\n"))
  {
    var items := Items(Split(text, "\n"));
    CollectEmpty(Classify, Split(text, "\n"));
    if items == [] then RawText(LineBreaksToBr(text)) else Structured(items)
  }

  /** The loop of doSimplify: classify every line of the reply and collect the items. */
  method SimplifyNotes(text: string) returns (view: View)
    ensures view == Parse(text)
  {
    var lines := Split(text, "\n");
    var items: seq<Item> := [];
    for i := 0 to |lines|
      invariant items == Items(lines[..i])
    {
      assert lines[..i + 1][..i] == lines[..i];
      assert lines[..i + 1][i] == lines[i];
      match Classify(lines[i]) {
        case None =>
        case Some(item) => items := items + [item];
      }
    }
    assert lines[..|lines|] == lines;
    if items == [] {
      view := RawText(LineBreaksToBr(text));
    } else {
      view := Structured(items);
    }
  }

  /** Lines are classified independently, so the items of two blocks of lines are concatenated in order. */
  lemma {:induction false} CollectAppend(classify: string -> Option<Item>, a: seq<string>, b: seq<string>)
    ensures Collect(classify, a + b) == Collect(classify, a) + Collect(classify, b)
    decreases |b|
  {
    if b == [] {
      assert a + b == a;
    } else {
      var b' := b[..|b| - 1];
      assert (a + b)[..|a + b| - 1] == a + b';
      assert (a + b)[|a + b| - 1] == b[|b| - 1];
      CollectAppend(classify, a, b');
    }
  }

  lemma CollectOne(classify: string -> Option<Item>, line: string)
    ensures Collect(classify, [line]) == match classify(line) case None => [] case Some(item) => [item]
  {
    assert [line][..0] == [];
  }

  /** The items of a block of lines followed by another: the first block's items, then the second's. */
  lemma ItemsAppend(a: seq<string>, b: seq<string>)
    ensures Items(a + b) == Items(a) + Items(b)
  {
    CollectAppend(Classify, a, b);
  }

  /** A blank or unrecognised line contributes nothing, wherever it stands. */
  lemma DroppedLine(before: seq<string>, line: string, after: seq<string>)
    requires Classify(line) == None
    ensures Items(before + [line] + after) == Items(before + after)
  {
    CollectAppend(Classify, before + [line], after);
    CollectAppend(Classify, before, [line]);
    CollectAppend(Classify, before, after);
    CollectOne(Classify, line);
  }

  /** A recognised line contributes its item at its place in the order. */
  lemma KeptLine(before: seq<string>, line: string, after: seq<string>, item: Item)
    requires Classify(line) == Some(item)
    ensures Items(before + [line] + after) == Items(before) + [item] + Items(after)
  {
    CollectAppend(Classify, before + [line], after);
    CollectAppend(Classify, before, [line]);
    CollectOne(Classify, line);
  }

  /** `classify` recognises no line of `lines`. */
  predicate NoneRecognised(classify: string -> Option<Item>, lines: seq<string>)
  {
    forall i :: 0 <= i < |lines| ==> classify(lines[i]) == None
  }

  lemma {:induction false} CollectEmpty(classify: string -> Option<Item>, lines: seq<string>)
    ensures Collect(classify, lines) == [] <==> NoneRecognised(classify, lines)
    decreases |lines|
  {
    if lines != [] {
      var init := lines[..|lines| - 1];
      CollectEmpty(classify, init);
      assert forall i :: 0 <= i < |init| ==> init[i] == lines[i];
    }
  }

  lemma {:induction false} CollectFrom(classify: string -> Option<Item>, lines: seq<string>)
    ensures |Collect(classify, lines)| <= |lines|
    ensures forall k :: 0 <= k < |Collect(classify, lines)| ==>
      exists i :: 0 <= i < |lines| && classify(lines[i]) == Some(Collect(classify, lines)[k])
    decreases |lines|
  {
    if lines != [] {
      var n := |lines| - 1;
      var init := lines[..n];
      CollectFrom(classify, init);
      var r := Collect(classify, lines);
      var front := Collect(classify, init);
      forall k | 0 <= k < |r| ensures exists i :: 0 <= i < |lines| && classify(lines[i]) == Some(r[k]) {
        if k < |front| {
          var i :| 0 <= i < |init| && classify(init[i]) == Some(front[k]);
          assert lines[i] == init[i];
        } else {
          assert classify(lines[n]) == Some(r[k]);
        }
      }
    }
  }

  /** The line format the prompt asks the model to follow. */
  function RenderItem(item: Item): string
  {
    match item
    case Topic(name) => TopicLabel + " " + name
    case PointsHeader => PointsLabel
    case TermsHeader => TermsLabel
    case Bullet(point) => [BulletMark] + " " + point
    case Term(term, definition) => term + TermSeparator + definition
  }

  function RenderLines(items: seq<Item>): (lines: seq<string>)
    ensures |lines| == |items|
    ensures forall k :: 0 <= k < |items| ==> lines[k] == RenderItem(items[k])
  {
    if items == [] then [] else [RenderItem(items[0])] + RenderLines(items[1..])
  }

  /** A reply in the requested format, one line per item. */
  function Render(items: seq<Item>): string
  {
    Join(RenderLines(items), "\n")
  }

  /** A field that survives a trip through a reply line: non-empty, trimmed, on one line. */
  predicate Clean(s: string)
  {
    s != [] && Trimmed(s) && '\n' !in s
  }

  /**
   * The items a well-behaved reply is made of: clean fields, and a term that
   * neither contains a dash nor could be mistaken for a topic or a bullet.
   */
  predicate WellFormed(item: Item)
  {
    match item
    case Topic(name) => Clean(name)
    case PointsHeader => true
    case TermsHeader => true
    case Bullet(point) => Clean(point)
    case Term(term, definition) =>
      Clean(term) && Clean(definition) && '—' !in term && '—' !in definition &&
      !StartsWith(term, TopicLabel) && term[0] != BulletMark
  }

  lemma SeparatorAt(s: string, j: nat)
    ensures OccursAt(s, TermSeparator, j) ==> j + 1 < |s| && s[j + 1] == '—'
  {
    if OccursAt(s, TermSeparator, j) {
      assert s[j..j + 3][1] == TermSeparator[1];
    }
  }

  lemma NoSeparatorWithoutDash(s: string)
    requires '—' !in s
    ensures IndexOf(s, TermSeparator).None?
  {
    forall j: nat ensures !OccursAt(s, TermSeparator, j) {
      SeparatorAt(s, j);
      if j + 1 < |s| { assert s[j + 1] in s; }
    }
  }

  /** A term line never starts with the topic label unless its term does. */
  lemma TermLineNotTopic(term: string, definition: string)
    requires '—' !in term && !StartsWith(term, TopicLabel)
    ensures !StartsWith(term + TermSeparator + definition, TopicLabel)
  {
    var l := term + TermSeparator + definition;
    if |l| >= 6 {
      if |term| >= 6 {
        assert l[..6] == term[..6];
      } else if |term| == 5 {
        assert l[..6][5] == ' ';
      } else {
        assert l[..6][|term| + 1] == '—';
      }
    }
  }

  /** The text facts about a rendered term line that decide how it is classified. */
  lemma TermLineText(term: string, definition: string)
    requires WellFormed(Term(term, definition))
    ensures var l := term + TermSeparator + definition;
      Trimmed(l) && l != [] && l[0] == term[0] && !StartsWith(l, TopicLabel) &&
      l != PointsLabel && l != TermsLabel &&
      IndexOf(l, TermSeparator) == Some(|term|) && Split(l, TermSeparator) == [term, definition]
  {
    var l := term + TermSeparator + definition;
    assert Trimmed(l) by {
      assert l[0] == term[0];
      assert l[|l| - 1] == definition[|definition| - 1];
    }
    TermLineNotTopic(term, definition);
    assert l[|term| + 1] == '—';
    assert '—' !in PointsLabel;
    assert '—' !in TermsLabel;
    assert l != PointsLabel && l != TermsLabel by {
      assert l[|term| + 1] in l;
    }
    assert OccursAt(l, TermSeparator, |term|) by {
      assert l[|term|..|term| + 3] == TermSeparator;
    }
    forall j: nat | j < |term| ensures !OccursAt(l, TermSeparator, j) {
      SeparatorAt(l, j);
      if j + 1 < |term| {
        assert term[j + 1] == l[j + 1];
        assert term[j + 1] in term;
      } else {
        assert l[j + 1] == ' ';
      }
    }
    IndexOfFirst(l, TermSeparator, |term|);
    assert l[..|term|] == term;
    assert l[|term| + 3..] == definition;
    NoSeparatorWithoutDash(definition);
    assert Split(definition, TermSeparator) == [definition];
    assert Split(l, TermSeparator) == [term] + Split(definition, TermSeparator);
  }

  lemma ClassifyTermLine(term: string, definition: string)
    requires WellFormed(Term(term, definition))
    ensures Classify(term + TermSeparator + definition) == Some(Term(term, definition))
  {
    var l := term + TermSeparator + definition;
    TermLineText(term, definition);
    TrimOfTrimmed(l);
    TrimOfTrimmed(term);
    TrimOfTrimmed(definition);
    assert Contains(l, TermSeparator);
  }

  lemma ClassifyTopicLine(name: string)
    requires Clean(name)
    ensures Classify(TopicLabel + " " + name) == Some(Topic(name))
  {
    var l := TopicLabel + " " + name;
    assert Trimmed(l) by { assert l[|l| - 1] == name[|name| - 1]; }
    TrimOfTrimmed(l);
    assert StartsWith(l, TopicLabel) by { assert l[..6] == TopicLabel; }
    assert OccursAt(l, TopicLabel, 0) by { assert l[0..6] == TopicLabel; }
    IndexOfFirst(l, TopicLabel, 0);
    assert l[6..] == " " + name;
    assert ReplaceFirst(l, TopicLabel, "") == " " + name;
    TrimSpacePrefix(name);
  }

  lemma ClassifyBulletLine(point: string)
    requires Clean(point)
    ensures Classify([BulletMark] + " " + point) == Some(Bullet(point))
  {
    var l := [BulletMark] + " " + point;
    assert Trimmed(l) by { assert l[|l| - 1] == point[|point| - 1]; }
    TrimOfTrimmed(l);
    assert !StartsWith(l, TopicLabel) by {
      if |l| >= 6 { assert l[..6][0] != TopicLabel[0]; }
    }
    assert l != PointsLabel && l != TermsLabel by { assert l[0] != PointsLabel[0] && l[0] != TermsLabel[0]; }
    assert l[1..] == " " + point;
    TrimSpacePrefix(point);
  }

  lemma ClassifyHeaders()
    ensures Classify(PointsLabel) == Some(PointsHeader)
    ensures Classify(TermsLabel) == Some(TermsHeader)
  {
    TrimOfTrimmed(PointsLabel);
    TrimOfTrimmed(TermsLabel);
    assert !StartsWith(PointsLabel, TopicLabel) by { assert PointsLabel[..6][0] != TopicLabel[0]; }
    assert !StartsWith(TermsLabel, TopicLabel) by { assert TermsLabel[..6][1] != TopicLabel[1]; }
  }

  /** A rendered line of a well-formed item classifies back to that item. */
  lemma ClassifyRendered(item: Item)
    requires WellFormed(item)
    ensures Classify(RenderItem(item)) == Some(item)
  {
    match item
    case Topic(name) => ClassifyTopicLine(name);
    case PointsHeader => ClassifyHeaders();
    case TermsHeader => ClassifyHeaders();
    case Bullet(point) => ClassifyBulletLine(point);
    case Term(term, definition) => ClassifyTermLine(term, definition);
  }

  /** Every rendered line stays on one line. */
  lemma RenderedOneLine(item: Item)
    requires WellFormed(item)
    ensures '\n' !in RenderItem(item)
  {
    match item
    case Topic(name) => assert '\n' !in TopicLabel + " ";
    case PointsHeader =>
    case TermsHeader =>
    case Bullet(point) => assert '\n' !in [BulletMark] + " ";
    case Term(term, definition) => assert '\n' !in TermSeparator;
  }

  lemma {:induction false} CollectAll(classify: string -> Option<Item>, lines: seq<string>, items: seq<Item>)
    requires |lines| == |items|
    requires forall k :: 0 <= k < |lines| ==> classify(lines[k]) == Some(items[k])
    ensures Collect(classify, lines) == items
    decreases |lines|
  {
    if lines != [] {
      var n := |lines| - 1;
      CollectAll(classify, lines[..n], items[..n]);
      assert items == items[..n] + [items[n]];
    }
  }

  /**
   * Parsing a reply written in the requested format gives back exactly the
   * items it was written from: the classifier is a left inverse of the format.
   */
  lemma RenderThenParse(items: seq<Item>)
    requires items != []
    requires forall k :: 0 <= k < |items| ==> WellFormed(items[k])
    ensures Parse(Render(items)) == Structured(items)
  {
    var lines := RenderLines(items);
    forall k | 0 <= k < |lines| ensures '\n' !in lines[k] && Classify(lines[k]) == Some(items[k]) {
      ClassifyRendered(items[k]);
      RenderedOneLine(items[k]);
    }
    SplitJoin(lines, '\n');
    CollectAll(Classify, lines, items);
  }

  const SampleItems: seq<Item> :=
    [Topic("Cells"), PointsHeader, Bullet("Cells grow"), TermsHeader, Term("DNA", "genes")]
  const SampleLines: seq<string> :=
    ["TOPIC: Cells", "KEY POINTS:", "• Cells grow", "KEY TERMS:", "DNA — genes"]

  lemma SampleTopicLine()
    ensures RenderItem(SampleItems[0]) == SampleLines[0]
  {
  }

  lemma SampleBulletLine()
    ensures RenderItem(SampleItems[2]) == SampleLines[2]
  {
  }

  lemma SampleTermLine()
    ensures RenderItem(SampleItems[4]) == SampleLines[4]
  {
  }

  lemma SampleRendering()
    ensures RenderLines(SampleItems) == SampleLines
  {
    SampleTopicLine();
    SampleBulletLine();
    SampleTermLine();
    var r := RenderLines(SampleItems);
    assert forall k :: 0 <= k < 5 ==> r[k] == SampleLines[k];
  }

  lemma SampleWellFormed()
    ensures forall k :: 0 <= k < |SampleItems| ==> WellFormed(SampleItems[k])
  {
    assert Clean("Cells") by { assert Trimmed("Cells"); }
    assert Clean("Cells grow") by { assert Trimmed("Cells grow"); }
    assert Clean("DNA") by { assert Trimmed("DNA"); }
    assert Clean("genes") by { assert Trimmed("genes"); }
    assert !StartsWith("DNA", TopicLabel);
  }

  /** The sample reply with one line of each kind, joined by newlines, is read as its five items. */
  lemma SampleReply()
    ensures Parse(Join(SampleLines, "\n")) == Structured(SampleItems)
  {
    SampleRendering();
    SampleWellFormed();
    RenderThenParse(SampleItems);
  }
}
