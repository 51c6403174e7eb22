/**
 * The report assembly of `main` in src/pipeline.py: the transcript is segmented,
 * its turn texts joined into the full text the models read, and the medical and
 * sentiment reports are built from the models' answers. The entity models, the
 * summarization model, the sentiment and intent classifiers and the SOAP note
 * generator are parameters.
 */
module Pipeline {
  import opened Text
  import opened Transcript
  import Ner
  import Summarizer

  /** The texts of the turns, in dialogue order. */
  function TurnTexts(conversation: seq<Turn>): (texts: seq<string>)
    ensures |texts| == |conversation|
    ensures forall i :: 0 <= i < |texts| ==> texts[i] == conversation[i].text
  {
    if conversation == [] then [] else [conversation[0].text] + TurnTexts(conversation[1..])
  }

  /** The turn texts joined with single spaces: the text the entity models and the summarizer read. */
  function FullText(conversation: seq<Turn>): string {
    JoinWith(" ", TurnTexts(conversation))
  }

  /** `medical_report`, field by field. */
  datatype MedicalReport = MedicalReport(
    patientName: string,
    symptoms: seq<string>,
    diagnosis: seq<string>,
    treatment: seq<string>,
    currentStatus: string,
    prognosis: string,
    summary: string,
    keywords: seq<string>)

  /** `sentiment_report`. */
  datatype SentimentReport = SentimentReport(sentiment: string, intent: string)

  /** The list filed under `key`, or the empty list when the dictionary has no such key. */
  function GetOrEmpty(entities: map<string, seq<string>>, key: string): seq<string> {
    if key in entities then entities[key] else []
  }

  /** The `medical_report` dictionary built from the entities, the keywords and the summary. */
  function MedicalReportOf(entities: map<string, seq<string>>, keywords: seq<string>, summary: string): (r: MedicalReport)
    ensures r.patientName == "Janet Jones"
    ensures r.currentStatus == "See summary" && r.prognosis == "See summary"
    ensures r.symptoms == r.diagnosis
    ensures Ner.Diseases in entities ==> r.diagnosis == entities[Ner.Diseases]
    ensures Ner.Diseases !in entities ==> r.diagnosis == []
    ensures Ner.Chemicals in entities ==> r.treatment == entities[Ner.Chemicals]
    ensures Ner.Chemicals !in entities ==> r.treatment == []
    ensures r.summary == summary && r.keywords == keywords
  {
    MedicalReport(
      "Janet Jones",
      GetOrEmpty(entities, Ner.Diseases),
      GetOrEmpty(entities, Ner.Diseases),
      GetOrEmpty(entities, Ner.Chemicals),
      "See summary",
      "See summary",
      summary,
      keywords)
  }

  /**
   * `main` without its file and console I/O: the three JSON documents it saves, from the
   * raw transcript and the models.
   */
  method RunPipeline<Note>(
      rawText: string,
      firstModel: string -> seq<Ner.Entity>,
      secondModel: string -> seq<Ner.Entity>,
      summarizer: Summarizer.Request -> string,
      sentimentOf: string -> string,
      intentOf: string -> string,
      soap: (string, map<string, seq<string>>, string) -> Note)
    returns (medical: MedicalReport, sentiment: SentimentReport, soapNote: Note)
    ensures var fullText := FullText(Segment(rawText));
      var bc5cdr, bionlp := firstModel(fullText), secondModel(fullText);
      && medical.patientName == "Janet Jones"
      && medical.currentStatus == "See summary" && medical.prognosis == "See summary"
      && medical.symptoms == Ner.Distinct(Ner.Texts(bc5cdr, ["DISEASE"]))
      && medical.diagnosis == medical.symptoms
      && medical.treatment == Ner.Distinct(Ner.Texts(bc5cdr, ["CHEMICAL"]))
      && medical.summary == summarizer(Summarizer.RequestFor(fullText))
      && Ner.NoDuplicates(medical.keywords)
      && (forall w :: w in medical.keywords <==>
            exists c :: c in Ner.Categories && w in Ner.EntitiesOf(bc5cdr, bionlp)[c])
      && soapNote == soap(fullText, Ner.EntitiesOf(bc5cdr, bionlp), medical.summary)
    ensures var patientText := ExtractPatientText(Segment(rawText));
      sentiment == SentimentReport(sentimentOf(patientText), intentOf(patientText))
  {
    var conversation := ParseTranscript(rawText);
    var patientText := ExtractPatientText(conversation);
    var fullText := FullText(conversation);

    var bc5cdr, bionlp := firstModel(fullText), secondModel(fullText);
    var entities := Ner.ExtractEntities(bc5cdr, bionlp);
    var keywords := Ner.GetKeywords(bc5cdr, bionlp);

    var summaryText := summarizer(Summarizer.RequestFor(fullText));

    medical := MedicalReportOf(entities, keywords, summaryText);
    sentiment := SentimentReport(sentimentOf(patientText), intentOf(patientText));
    soapNote := soap(fullText, entities, summaryText);
  }

  // ---------------------------------------------------------------------------
  // What the models read

  /** The full text, split into words, is the words of each turn in dialogue order. */
  lemma FullTextWords(conversation: seq<Turn>)
    ensures Words(FullText(conversation)) == WordsOfEach(TurnTexts(conversation))
  {
    WordsOfJoined(TurnTexts(conversation));
  }

  /** The patient text is the full text of the patient's turns alone. */
  lemma {:induction false} PatientTextIsFullTextOfPatients(conversation: seq<Turn>)
    ensures PatientTexts(conversation) == TurnTexts(Patients(conversation))
    ensures ExtractPatientText(conversation) == FullText(Patients(conversation))
    decreases |conversation|
  {
    if conversation != [] {
      PatientTextIsFullTextOfPatients(conversation[1..]);
      var head := if Contains(conversation[0].speaker, "Patient") then [conversation[0]] else [];
      TurnTextsAppend(head, Patients(conversation[1..]));
    }
  }

  /** The turns whose speaker contains "Patient", in order. */
  function Patients(conversation: seq<Turn>): seq<Turn> {
    if conversation == [] then []
    else
      (if Contains(conversation[0].speaker, "Patient") then [conversation[0]] else [])
      + Patients(conversation[1..])
  }

  lemma {:induction false} TurnTextsAppend(a: seq<Turn>, b: seq<Turn>)
    ensures TurnTexts(a + b) == TurnTexts(a) + TurnTexts(b)
    decreases |a|
  {
    if a == [] {
      assert a + b == b;
    } else {
      assert (a + b)[1..] == a[1..] + b;
      TurnTextsAppend(a[1..], b);
      ConcatAssoc([a[0].text], TurnTexts(a[1..]), TurnTexts(b));
    }
  }

  /** When every turn is the patient's, the sentiment text and the full text coincide. */
  lemma {:induction false} OnlyPatientTurns(conversation: seq<Turn>)
    requires forall i :: 0 <= i < |conversation| ==> conversation[i].speaker == "Patient"
    ensures PatientTexts(conversation) == TurnTexts(conversation)
    ensures ExtractPatientText(conversation) == FullText(conversation)
    decreases |conversation|
  {
    if conversation != [] {
      OnlyPatientIsPatient(conversation[0].speaker);
      OnlyPatientTurns(conversation[1..]);
    }
  }

  // ---------------------------------------------------------------------------
  // Segmentation loses and repeats nothing

  /** What a line contributes to the turn texts: a header's remainder, any other line itself. */
  function Content(line: string): string {
    match MatchHeader(line)
    case Some(h) => h.rest
    case None => line
  }

  function Contents(lines: seq<string>): seq<string> {
    if lines == [] then [] else [Content(lines[0])] + Contents(lines[1..])
  }

  lemma {:induction false} ContentsAppend(a: seq<string>, b: seq<string>)
    ensures Contents(a + b) == Contents(a) + Contents(b)
    decreases |a|
  {
    if a == [] {
      assert a + b == b;
    } else {
      assert (a + b)[0] == a[0] && (a + b)[1..] == a[1..] + b;
      ContentsAppend(a[1..], b);
      ConcatAssoc([Content(a[0])], Contents(a[1..]), Contents(b));
    }
  }

  /** Continuation lines are carried over as they are. */
  lemma {:induction false} ContentsOfContinuation(lines: seq<string>)
    requires ContinuationLength(lines) == |lines|
    ensures Contents(lines) == lines
    decreases |lines|
  {
    if lines != [] {
      ContentsOfContinuation(lines[1..]);
      HeadTail(lines);
    }
  }

  lemma ContinuationPrefix(lines: seq<string>)
    ensures var k := ContinuationLength(lines);
      ContinuationLength(lines[..k]) == k && (k < |lines| ==> IsHeader(lines[k]))
  {
    ContinuationPrefixAt(lines, ContinuationLength(lines));
  }

  lemma {:induction false} ContinuationPrefixAt(lines: seq<string>, k: nat)
    requires k == ContinuationLength(lines)
    ensures ContinuationLength(lines[..k]) == k && (k < |lines| ==> IsHeader(lines[k]))
    decreases |lines|
  {
    if k > 0 {
      ContinuationPrefixAt(lines[1..], k - 1);
      assert lines[..k][1..] == lines[1..][..k - 1];
      assert lines[..k][0] == lines[0];
    }
  }

  /**
   * Joining the turn texts gives back the content of every line from the first header on,
   * in order, headers stripped of their `Speaker:` prefix: the lines before the first
   * header are the only text the segmentation drops.
   */
  lemma {:induction false} FullTextKeepsAllText(lines: seq<string>)
    ensures FullText(TurnsFrom(lines)) == JoinWith(" ", Contents(lines[ContinuationLength(lines)..]))
    decreases |lines|
  {
    if lines == [] {
    } else if !IsHeader(lines[0]) {
      FullTextKeepsAllText(lines[1..]);
      assert lines[1..][ContinuationLength(lines[1..])..] == lines[ContinuationLength(lines)..];
    } else {
      var h := MatchHeader(lines[0]).value;
      var k := ContinuationLength(lines[1..]);
      var first, tail := [h.rest] + lines[1..][..k], lines[1..][k..];
      var turn := Turn(Title(h.keyword), JoinWith(" ", first));
      assert TurnsFrom(lines) == [turn] + TurnsFrom(tail);
      assert lines[0..] == lines;
      ContentsAtHeader(lines);
      ContinuationPrefix(lines[1..]);
      assert tail[0..] == tail;
      FullTextKeepsAllText(tail);
      TurnsOfHeaderStart(tail);
      JoinTurnStep(turn, TurnsFrom(tail), first, Contents(tail));
    }
  }

  /** The contents of a header line's turn, then those of the rest. */
  lemma ContentsAtHeader(lines: seq<string>)
    requires lines != [] && IsHeader(lines[0])
    ensures var k := ContinuationLength(lines[1..]);
      Contents(lines) == ([MatchHeader(lines[0]).value.rest] + lines[1..][..k]) + Contents(lines[1..][k..])
  {
    var rest := lines[1..];
    var k := ContinuationLength(rest);
    ContentsOfHeader(lines);
    ContentsOfTurnBody(rest);
    ConcatAssoc([MatchHeader(lines[0]).value.rest], rest[..k], Contents(rest[k..]));
  }

  lemma ContentsOfHeader(lines: seq<string>)
    requires lines != [] && IsHeader(lines[0])
    ensures Contents(lines) == [MatchHeader(lines[0]).value.rest] + Contents(lines[1..])
  {
  }

  /** The continuation lines of a turn, as they are, then the contents of what follows. */
  lemma ContentsOfTurnBody(lines: seq<string>)
    ensures var k := ContinuationLength(lines);
      Contents(lines) == lines[..k] + Contents(lines[k..])
  {
    var k := ContinuationLength(lines);
    var continuation, tail := lines[..k], lines[k..];
    ContinuationPrefix(lines);
    ContentsOfContinuation(continuation);
    assert lines == continuation + tail;
    ContentsAppend(continuation, tail);
  }

  /** Lines starting with a header yield at least one turn. */
  lemma TurnsOfHeaderStart(lines: seq<string>)
    requires lines == [] || IsHeader(lines[0])
    ensures TurnsFrom(lines) == [] <==> Contents(lines) == []
  {
  }

  lemma JoinTurnStep(turn: Turn, turns: seq<Turn>, first: seq<string>, rest: seq<string>)
    requires first != [] && turn.text == JoinWith(" ", first)
    requires FullText(turns) == JoinWith(" ", rest)
    requires turns == [] <==> rest == []
    ensures FullText([turn] + turns) == JoinWith(" ", first + rest)
  {
    assert TurnTexts([turn] + turns) == [turn.text] + TurnTexts(turns);
    if turns == [] {
      AppendEmpty(first);
    } else {
      JoinCons(" ", turn.text, TurnTexts(turns));
      JoinAppend(" ", first, rest);
    }
  }
}
