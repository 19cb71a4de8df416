/**
 * The bracket slice doFlash and doQuiz apply to the model's reply before
 * JSON.parse (js/Script.js:199-203 and 271-275), and the flashcards doFlash
 * makes of the array it finds. JSON.parse is the parameter `parse`: `None`
 * stands for the SyntaxError it throws.
 */
module Extract {
  import opened Wrappers
  import opened Json
  import opened Text

  /** Why a reply yields no array; each is an Error thrown inside the try block. */
  datatype ExtractError =
    | NoArray           // 'No JSON array in response': a '[' or a ']' is missing
    | NotJson           // JSON.parse threw on the slice
    | NotNonEmptyArray  // 'Empty cards': the parsed value is not an array, or is empty

  /**
   * text.slice(text.indexOf('['), text.lastIndexOf(']') + 1), or `None` when
   * either index is -1.
   */
  function Candidate(text: string): (r: Option<string>)
    ensures r.None? <==> '[' !in text || ']' !in text
  {
    var start := FirstIndexOfChar(text, '[');
    var end := LastIndexOfChar(text, ']');
    if start == -1 || end == -1 then None
    else Some(Slice(text, start, end + 1))
  }

  /** The array the reply carries, if JSON.parse makes a non-empty array of the slice. */
  function ExtractArray(text: string, parse: string -> Option<Json>): (r: Result<seq<Json>, ExtractError>)
    ensures r == Err(NoArray) <==> Candidate(text).None?
    ensures r == Err(NotJson) <==> Candidate(text).Some? && parse(Candidate(text).value).None?
    ensures r.Ok? <==>
      Candidate(text).Some? && parse(Candidate(text).value).Some?
      && parse(Candidate(text).value).value.JArray? && parse(Candidate(text).value).value.items != []
    ensures r.Ok? ==> r.value != [] && parse(Candidate(text).value) == Some(JArray(r.value))
  {
    match Candidate(text)
    case None => Err(NoArray)
    case Some(slice) =>
      match parse(slice)
      case None => Err(NotJson)
      case Some(JArray(items)) => if items != [] then Ok(items) else Err(NotNonEmptyArray)
      case Some(_) => Err(NotNonEmptyArray)
  }

  /** `text` is `c` with chatter around it: no '[' before it and no ']' after it. */
  ghost predicate Framed(text: string, c: string)
  {
    exists pre, suf :: text == pre + c + suf && '[' !in pre && ']' !in suf
  }

  /** `c` is `text` from a '[' with none before it to a ']' with none after it, both included. */
  ghost predicate Bracketed(text: string, start: int, end: int, c: string)
  {
    0 <= start <= end < |text| && c == text[start..end + 1]
    && text[start] == '[' && '[' !in text[..start] && text[end] == ']' && ']' !in text[end + 1..]
  }

  /** A non-empty candidate runs from the first '[' of the reply to its last ']'. */
  lemma {:induction false} CandidateShape(text: string)
    requires Candidate(text).Some? && Candidate(text).value != []
    ensures Framed(text, Candidate(text).value)
    ensures Candidate(text).value[0] == '[' && Candidate(text).value[|Candidate(text).value| - 1] == ']'
  {
    CandidateBounds(text);
    BracketsAround(text, FirstIndexOfChar(text, '['), LastIndexOfChar(text, ']'), Candidate(text).value);
  }

  /** The text between a '[' with none before it and a ']' with none after it is framed. */
  lemma BracketsAround(text: string, start: int, end: int, c: string)
    requires Bracketed(text, start, end, c)
    ensures Framed(text, c)
    ensures c != [] && c[0] == '[' && c[|c| - 1] == ']'
  {
    ThreeParts(text, start, end + 1);
    Surrounded(text, text[..start], c, text[end + 1..]);
  }

  /** Chatter without '[' before a block and without ']' after it. */
  lemma Surrounded(text: string, pre: string, c: string, suf: string)
    requires text == pre + c + suf && '[' !in pre && ']' !in suf
    ensures Framed(text, c)
  {
  }

  /** A non-empty candidate is the slice from the first '[' to the last ']', both included. */
  lemma {:induction false} CandidateBounds(text: string)
    requires Candidate(text).Some? && Candidate(text).value != []
    ensures Bracketed(text, FirstIndexOfChar(text, '['), LastIndexOfChar(text, ']'), Candidate(text).value)
  {
    var start, end := FirstIndexOfChar(text, '['), LastIndexOfChar(text, ']');
    assert 0 <= start && 0 <= end;
    NonEmptySlice(text, start, end + 1);
  }

  /** A slice that is not empty is the plain substring, and its ends are in order. */
  lemma NonEmptySlice(s: string, start: nat, end: nat)
    requires start <= |s| && end <= |s| && Slice(s, start, end) != []
    ensures start < end && Slice(s, start, end) == s[start..end]
  {
  }

  /** Cutting a string at two positions and gluing the pieces back gives it unchanged. */
  lemma ThreeParts(s: string, i: nat, j: nat)
    requires i <= j <= |s|
    ensures s == s[..i] + s[i..j] + s[j..]
  {
    assert s[..j] == s[..i] + s[i..j];
    assert s == s[..j] + s[j..];
  }

  /**
   * Conversely, whatever chatter surrounds a bracketed block, the block is the
   * candidate, provided the text before it has no '[' and the text after it no ']'.
   */
  lemma CandidateOfWrapped(pre: string, block: string, suf: string)
    requires |block| >= 2 && block[0] == '[' && block[|block| - 1] == ']'
    requires '[' !in pre && ']' !in suf
    ensures Candidate(pre + block + suf) == Some(block)
  {
    var text := pre + block + suf;
    var last := |pre| + |block| - 1;
    assert text[|pre|] == '[' && text[..|pre|] == pre;
    FirstIndexOfCharAt(text, '[', |pre|);
    assert text[last] == ']' && text[last + 1..] == suf;
    LastIndexOfCharAt(text, ']', last);
    assert text[|pre|..last + 1] == block;
  }

  /** The candidate is empty exactly when the last ']' comes before the first '['. */
  lemma {:induction false} CandidateEmpty(text: string)
    requires Candidate(text).Some?
    ensures Candidate(text).value == [] <==> LastIndexOfChar(text, ']') < FirstIndexOfChar(text, '[')
  {
  }

  /** When the slice is empty the outcome is what JSON.parse("") gives, a SyntaxError in JavaScript. */
  lemma ReversedBrackets(text: string, parse: string -> Option<Json>)
    requires '[' in text && ']' in text
    requires LastIndexOfChar(text, ']') < FirstIndexOfChar(text, '[')
    requires parse("").None?
    ensures ExtractArray(text, parse) == Err(NotJson)
  {
    CandidateEmpty(text);
  }

  /** The array extracted from a reply depends only on the bracketed block, not on the text around it. */
  lemma ExtractIgnoresChatter(pre: string, block: string, suf: string, parse: string -> Option<Json>)
    requires |block| >= 2 && block[0] == '[' && block[|block| - 1] == ']'
    requires '[' !in pre && ']' !in suf
    ensures ExtractArray(pre + block + suf, parse) == ExtractArray(block, parse)
  {
    CandidateOfWrapped(pre, block, suf);
    CandidateOfWrapped([], block, []);
    assert [] + block + [] == block;
    SameCandidate(pre + block + suf, block, parse);
  }

  /** The outcome is a function of the candidate alone. */
  lemma SameCandidate(t1: string, t2: string, parse: string -> Option<Json>)
    requires Candidate(t1) == Candidate(t2)
    ensures ExtractArray(t1, parse) == ExtractArray(t2, parse)
  {
  }

  /** One flashcard: the `q` and `a` fields of a card, `None` when the card lacks them. */
  datatype Flashcard = Flashcard(question: Option<Json>, answer: Option<Json>)

  /** What doFlash leaves on screen. */
  datatype FlashView =
    | NeedNotes          // blank input: a toast, no request
    | CouldNotGenerate   // the request failed, or the reply held no usable array
    | Cards(cards: seq<Flashcard>)

  /**
   * doFlash for the trimmed-or-not `notes` and the text callClaude resolved to
   * (`None` when it threw). Reading `card.q` of a null card throws, which sends
   * the whole grid to the failure message.
   */
  function Flash(notes: string, reply: Option<string>, parse: string -> Option<Json>): (v: FlashView)
    ensures v == NeedNotes <==> Trim(notes) == []
    ensures v.Cards? <==>
      Trim(notes) != [] && reply.Some? && ExtractArray(reply.value, parse).Ok?
      && JNull !in ExtractArray(reply.value, parse).value
    ensures v.Cards? ==>
      var items := ExtractArray(reply.value, parse).value;
      |v.cards| == |items| > 0 &&
      forall i :: 0 <= i < |items| ==>
        v.cards[i] == Flashcard(Get(Some(items[i]), "q"), Get(Some(items[i]), "a"))
  {
    if Trim(notes) == [] then NeedNotes
    else if reply.None? then CouldNotGenerate
    else
      match ExtractArray(reply.value, parse)
      case Err(_) => CouldNotGenerate
      case Ok(items) =>
        if JNull in items then CouldNotGenerate
        else Cards(seq(|items|, i requires 0 <= i < |items| => Flashcard(Get(Some(items[i]), "q"), Get(Some(items[i]), "a"))))
  }

  /** The example reply: chatter around a one-card array gives that card. */
  lemma FlashExample(parse: string -> Option<Json>)
    requires parse("[{\"q\":\"Q1?\",\"a\":\"A1\"}]")
      == Some(JArray([JObject(map["q" := JString("Q1?"), "a" := JString("A1")])]))
    ensures Flash("Cells", Some("Here you go: " + "[{\"q\":\"Q1?\",\"a\":\"A1\"}]" + " thanks"), parse)
      == Cards([Flashcard(Some(JString("Q1?")), Some(JString("A1")))])
  {
    var block := "[{\"q\":\"Q1?\",\"a\":\"A1\"}]";
    var card := JObject(map["q" := JString("Q1?"), "a" := JString("A1")]);
    var reply := "Here you go: " + block + " thanks";
    ExampleArray(parse);
    ExampleNotes();
    CardFields("Q1?", "A1");
    FlashOne("Cells", reply, parse, card);
  }

  /** The example reply's array is the one-card array. */
  lemma ExampleArray(parse: string -> Option<Json>)
    requires parse("[{\"q\":\"Q1?\",\"a\":\"A1\"}]")
      == Some(JArray([JObject(map["q" := JString("Q1?"), "a" := JString("A1")])]))
    ensures ExtractArray("Here you go: " + "[{\"q\":\"Q1?\",\"a\":\"A1\"}]" + " thanks", parse)
      == Ok([JObject(map["q" := JString("Q1?"), "a" := JString("A1")])])
  {
    var block := "[{\"q\":\"Q1?\",\"a\":\"A1\"}]";
    CandidateOfWrapped("Here you go: ", block, " thanks");
    ParsedCandidate("Here you go: " + block + " thanks", parse, [JObject(map["q" := JString("Q1?"), "a" := JString("A1")])]);
  }

  /** The example's notes are not blank. */
  lemma ExampleNotes()
    ensures Trim("Cells") != []
  {
    assert !IsSpace("Cells"[0]);
  }

  /** The fields of a card object with a question and an answer. */
  lemma CardFields(q: string, a: string)
    ensures Get(Some(JObject(map["q" := JString(q), "a" := JString(a)])), "q") == Some(JString(q))
    ensures Get(Some(JObject(map["q" := JString(q), "a" := JString(a)])), "a") == Some(JString(a))
  {
  }

  /** A candidate that parses to a non-empty array is extracted as that array. */
  lemma ParsedCandidate(text: string, parse: string -> Option<Json>, items: seq<Json>)
    requires Candidate(text).Some? && parse(Candidate(text).value) == Some(JArray(items)) && items != []
    ensures ExtractArray(text, parse) == Ok(items)
  {
  }

  /** A reply whose array holds one non-null card gives that one flashcard. */
  lemma FlashOne(notes: string, reply: string, parse: string -> Option<Json>, card: Json)
    requires Trim(notes) != [] && ExtractArray(reply, parse) == Ok([card]) && card != JNull
    ensures Flash(notes, Some(reply), parse) == Cards([Flashcard(Get(Some(card), "q"), Get(Some(card), "a"))])
  {
  }
}
