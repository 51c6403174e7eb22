/**
 * The transcript segmenter of src/utils.py: `parse_transcript` splits a raw
 * doctor-patient dialogue into speaker turns, `extract_patient_text` joins the
 * patient's turns.
 */
module Transcript {
  import opened Wrappers
  import opened Text

  /** One entry of the list `parse_transcript` returns: a speaker and what they said. */
  datatype Turn = Turn(speaker: string, text: string)

  /** A matched header line: the keyword as written in the line, and the text after the colon and any whitespace. */
  datatype Header = Header(keyword: string, rest: string)

  /** The header keywords, in the order of the regular expression's alternatives. */
  const Speakers: seq<string> := ["Doctor", "Physician", "Patient"]

  // ---------------------------------------------------------------------------
  // Recognising a turn header

  function Lower(c: char): char {
    if 'A' <= c <= 'Z' then (c as int + 32) as char else c
  }

  function Upper(c: char): char {
    if 'a' <= c <= 'z' then (c as int - 32) as char else c
  }

  /** `re.IGNORECASE` comparison of two strings, letter by letter. */
  predicate EqualsIgnoreCase(a: string, b: string) {
    if a == [] then b == []
    else b != [] && Lower(a[0]) == Lower(b[0]) && EqualsIgnoreCase(a[1..], b[1..])
  }

  function LowerAll(w: string): string {
    if w == [] then [] else [Lower(w[0])] + LowerAll(w[1..])
  }

  /** `str.title()` on one alphabetic word: first letter upper case, the rest lower case. */
  function Title(w: string): string {
    if w == [] then [] else [Upper(w[0])] + LowerAll(w[1..])
  }

  /** The line starts with `keyword:`, the keyword in any case. */
  predicate Opens(line: string, keyword: string) {
    |line| > |keyword| && EqualsIgnoreCase(line[..|keyword|], keyword) && line[|keyword|] == ':'
  }

  function MatchKeyword(line: string, keyword: string): Option<Header> {
    if Opens(line, keyword) then Some(Header(line[..|keyword|], TrimStart(line[|keyword| + 1..])))
    else None
  }

  /** The case-insensitive header match on a stripped line, trying the alternatives Doctor, Physician, Patient in order. */
  function MatchHeader(line: string): Option<Header> {
    var doctor := MatchKeyword(line, "Doctor");
    if doctor.Some? then doctor
    else
      var physician := MatchKeyword(line, "Physician");
      if physician.Some? then physician else MatchKeyword(line, "Patient")
  }

  predicate IsHeader(line: string) {
    MatchHeader(line).Some?
  }

  /**
   * What the match means: it succeeds exactly when the line opens with one of the
   * three keywords and a colon; group 1 is the keyword as written, just before the
   * colon, and group 2 the rest of the line with its leading whitespace removed.
   */
  lemma MatchHeaderMeaning(line: string)
    ensures IsHeader(line) <==> Opens(line, "Doctor") || Opens(line, "Physician") || Opens(line, "Patient")
    ensures IsHeader(line) ==>
      var h := MatchHeader(line).value;
      && |h.keyword| < |line| && line[..|h.keyword|] == h.keyword && line[|h.keyword|] == ':'
      && h.rest == TrimStart(line[|h.keyword| + 1..])
      && exists k :: k in Speakers && Opens(line, k) && |h.keyword| == |k|
  {
    if IsHeader(line) {
      if Opens(line, "Doctor") {
        assert "Doctor" in Speakers;
      } else if Opens(line, "Physician") {
        assert "Physician" in Speakers;
      } else {
        assert "Patient" in Speakers;
      }
    }
  }

  // ---------------------------------------------------------------------------
  // The segmentation, stated on whole lists of lines

  /** The stripped, non-blank lines, in order: what the loop of `parse_transcript` acts on. */
  function Significant(lines: seq<string>): seq<string> {
    if lines == [] then []
    else
      var s := Strip(lines[0]);
      (if s == [] then [] else [s]) + Significant(lines[1..])
  }

  /** The number of leading lines of `lines` that are not headers. */
  function ContinuationLength(lines: seq<string>): (k: nat)
    ensures k <= |lines|
  {
    if lines == [] || IsHeader(lines[0]) then 0 else 1 + ContinuationLength(lines[1..])
  }

  /** How many of `lines` are headers. */
  function HeaderCount(lines: seq<string>): nat {
    if lines == [] then 0 else (if IsHeader(lines[0]) then 1 else 0) + HeaderCount(lines[1..])
  }

  /**
   * The turns of a list of significant lines: each header opens a turn whose text is
   * the header's remainder followed by the non-header lines up to the next header,
   * joined with single spaces; non-header lines before the first header belong to no turn.
   */
  function TurnsFrom(lines: seq<string>): seq<Turn>
    decreases |lines|
  {
    if lines == [] then []
    else match MatchHeader(lines[0])
      case None => TurnsFrom(lines[1..])
      case Some(h) =>
        var k := ContinuationLength(lines[1..]);
        [Turn(Title(h.keyword), JoinWith(" ", [h.rest] + lines[1..][..k]))] + TurnsFrom(lines[1..][k..])
  }

  /** The lines `parse_transcript` iterates over: the stripped transcript split at each newline. */
  function Lines(transcript: string): seq<string> {
    Split(Strip(transcript), '\n')
  }

  /** What `parse_transcript(transcript)` returns. */
  function Segment(transcript: string): seq<Turn> {
    TurnsFrom(Significant(Lines(transcript)))
  }

  /**
   * The turns still to come once the loop has read some lines: the open turn (if any)
   * with the pieces gathered so far, continued by the rest of the lines.
   */
  function Resume(speaker: Option<string>, pieces: seq<string>, rest: seq<string>): seq<Turn> {
    match speaker
    case None => TurnsFrom(rest)
    case Some(sp) =>
      var k := ContinuationLength(rest);
      [Turn(sp, JoinWith(" ", pieces + rest[..k]))] + TurnsFrom(rest[k..])
  }

  // ---------------------------------------------------------------------------
  // parse_transcript

  method ParseTranscript(transcript: string) returns (conversation: seq<Turn>)
    ensures conversation == Segment(transcript)
    ensures |conversation| == HeaderCount(Significant(Lines(transcript)))
    ensures forall i :: 0 <= i < |conversation| ==> conversation[i].speaker in Speakers
  {
    var lines := Lines(transcript);
    conversation := ParseLines(lines);
    TurnCount(Significant(lines));
    SpeakersAreKeywords(Significant(lines));
  }

  /** The loop of `parse_transcript` over the lines of the transcript, and the final flush. */
  method ParseLines(lines: seq<string>) returns (conversation: seq<Turn>)
    ensures conversation == TurnsFrom(Significant(lines))
  {
    conversation := [];
    var currentSpeaker: Option<string> := None;
    var currentText: seq<string> := [];
    assert lines[0..] == lines;
    EmptyAppend(TurnsFrom(Significant(lines)));
    for i := 0 to |lines|
      invariant conversation + Resume(currentSpeaker, currentText, Significant(lines[i..]))
        == TurnsFrom(Significant(lines))
    {
      var line := Strip(lines[i]);
      SignificantStep(lines, i);
      if line == [] {
        EmptyAppend(Significant(lines[i + 1..]));
      } else {
        conversation, currentSpeaker, currentText :=
          ReadLine(conversation, currentSpeaker, currentText, line, Significant(lines[i + 1..]));
      }
    }
    assert lines[|lines|..] == [];
    ResumeAtEnd(currentSpeaker, currentText);
    if currentSpeaker.Some? {
      conversation := conversation + [Turn(currentSpeaker.value, JoinWith(" ", currentText))];
    } else {
      AppendEmpty(conversation);
    }
  }

  /**
   * One pass of the loop of `parse_transcript` over a stripped, non-blank line: a header
   * closes the open turn (if any) and opens a new one; any other line is appended to the
   * open turn's pieces, or dropped when no turn is open.
   */
  method ReadLine(conversation: seq<Turn>, speaker: Option<string>, pieces: seq<string>,
                  line: string, ghost rest: seq<string>)
    returns (conversation': seq<Turn>, speaker': Option<string>, pieces': seq<string>)
    ensures conversation' + Resume(speaker', pieces', rest)
         == conversation + Resume(speaker, pieces, [line] + rest)
  {
    var m := MatchHeader(line);
    if m.Some? {
      speaker' := Some(Title(m.value.keyword));
      pieces' := [m.value.rest];
      ResumeAtHeader(speaker, pieces, line, rest);
      if speaker.Some? {
        var turn := Turn(speaker.value, JoinWith(" ", pieces));
        ConcatAssoc(conversation, [turn], Resume(speaker', pieces', rest));
        conversation' := conversation + [turn];
      } else {
        EmptyAppend(Resume(speaker', pieces', rest));
        conversation' := conversation;
      }
    } else {
      ResumeAtContinuation(speaker, pieces, line, rest);
      conversation', speaker' := conversation, speaker;
      pieces' := if speaker.Some? then pieces + [line] else pieces;
    }
  }

  lemma ResumeAtEnd(speaker: Option<string>, pieces: seq<string>)
    ensures Resume(speaker, pieces, [])
         == if speaker.Some? then [Turn(speaker.value, JoinWith(" ", pieces))] else []
  {
    var empty: seq<string> := [];
    assert empty[..0] == empty && empty[0..] == empty;
    AppendEmpty(pieces);
  }

  lemma SignificantStep(lines: seq<string>, i: nat)
    requires i < |lines|
    ensures Significant(lines[i..])
         == (if Strip(lines[i]) == [] then [] else [Strip(lines[i])]) + Significant(lines[i + 1..])
  {
    assert lines[i..][0] == lines[i];
    assert lines[i..][1..] == lines[i + 1..];
  }

  lemma ResumeAtHeader(speaker: Option<string>, pieces: seq<string>, line: string, rest: seq<string>)
    requires IsHeader(line)
    ensures var h := MatchHeader(line).value;
      Resume(speaker, pieces, [line] + rest)
        == (if speaker.Some? then [Turn(speaker.value, JoinWith(" ", pieces))] else [])
           + Resume(Some(Title(h.keyword)), [h.rest], rest)
  {
    var all := [line] + rest;
    assert all[0] == line && all[1..] == rest;
    assert ContinuationLength(all) == 0;
    assert all[..0] == [] && all[0..] == all;
    assert pieces + [] == pieces;
  }

  lemma ResumeAtContinuation(speaker: Option<string>, pieces: seq<string>, line: string, rest: seq<string>)
    requires !IsHeader(line)
    ensures Resume(speaker, pieces, [line] + rest)
         == Resume(speaker, if speaker.Some? then pieces + [line] else pieces, rest)
  {
    var all := [line] + rest;
    assert all[0] == line && all[1..] == rest;
    if speaker.Some? {
      var k := ContinuationLength(rest);
      assert ContinuationLength(all) == k + 1;
      assert all[..k + 1] == [line] + rest[..k];
      assert all[k + 1..] == rest[k..];
      ConcatAssoc(pieces, [line], rest[..k]);
    }
  }

  // ---------------------------------------------------------------------------
  // What the segmentation promises

  /** The lines before the first header open no turn and are dropped. */
  lemma {:induction false} LeadingOrphansDropped(lines: seq<string>)
    ensures TurnsFrom(lines) == TurnsFrom(lines[ContinuationLength(lines)..])
    ensures HeaderCount(lines) == HeaderCount(lines[ContinuationLength(lines)..])
    decreases |lines|
  {
    if lines != [] && !IsHeader(lines[0]) {
      LeadingOrphansDropped(lines[1..]);
      assert lines[1..][ContinuationLength(lines[1..])..] == lines[ContinuationLength(lines)..];
    }
  }

  /** Every header opens exactly one turn. */
  lemma {:induction false} TurnCount(lines: seq<string>)
    ensures |TurnsFrom(lines)| == HeaderCount(lines)
    decreases |lines|
  {
    if lines != [] {
      if IsHeader(lines[0]) {
        var k := ContinuationLength(lines[1..]);
        LeadingOrphansDropped(lines[1..]);
        TurnCount(lines[1..][k..]);
      } else {
        TurnCount(lines[1..]);
      }
    }
  }

  /** Without a header line there are no turns. */
  lemma NoHeaderNoTurns(lines: seq<string>)
    requires HeaderCount(lines) == 0
    ensures TurnsFrom(lines) == []
  {
    TurnCount(lines);
  }

  lemma {:induction false} LowerAllIgnoresCase(a: string, b: string)
    requires EqualsIgnoreCase(a, b)
    ensures LowerAll(a) == LowerAll(b)
    decreases |a|
  {
    if a != [] {
      LowerAllIgnoresCase(a[1..], b[1..]);
    }
  }

  lemma TitleIgnoresCase(a: string, b: string)
    requires EqualsIgnoreCase(a, b)
    ensures Title(a) == Title(b)
  {
    if a != [] {
      assert Upper(a[0]) == Upper(b[0]);
      LowerAllIgnoresCase(a[1..], b[1..]);
    }
  }

  lemma {:induction false} LowerAllOfLowerCase(w: string)
    requires forall i :: 0 <= i < |w| ==> !('A' <= w[i] <= 'Z')
    ensures LowerAll(w) == w
    decreases |w|
  {
    if w != [] {
      LowerAllOfLowerCase(w[1..]);
      assert [w[0]] + w[1..] == w;
    }
  }

  /** `str.title()` leaves each of the three keywords as written. */
  lemma TitleOfSpeaker(keyword: string)
    requires keyword in Speakers
    ensures Title(keyword) == keyword
  {
    LowerAllOfLowerCase(keyword[1..]);
  }

  lemma SpeakerOfKeyword(line: string, keyword: string)
    requires MatchKeyword(line, keyword).Some?
    ensures Title(MatchKeyword(line, keyword).value.keyword) == Title(keyword)
  {
    TitleIgnoresCase(line[..|keyword|], keyword);
  }

  /** The speaker of a header line is its keyword title-cased, so one of the three keywords. */
  lemma SpeakerOfHeader(line: string)
    requires IsHeader(line)
    ensures Title(MatchHeader(line).value.keyword) in Speakers
  {
    var keyword := if MatchKeyword(line, "Doctor").Some? then "Doctor"
      else if MatchKeyword(line, "Physician").Some? then "Physician" else "Patient";
    SpeakerOfKeyword(line, keyword);
    TitleOfSpeaker(keyword);
  }

  /** Letters matched ignoring case agree once lower-cased, position by position. */
  lemma {:induction false} LetterIgnoresCase(a: string, b: string, i: nat)
    requires EqualsIgnoreCase(a, b) && i < |b|
    ensures i < |a| && Lower(a[i]) == Lower(b[i])
    decreases i
  {
    if i > 0 {
      LetterIgnoresCase(a[1..], b[1..], i - 1);
    }
  }

  /**
   * A line opening with `Doctor:`, `Physician:` or `Patient:` in any case is a header whose
   * speaker is that keyword: in particular "Physician" is kept apart from "Doctor".
   */
  lemma SpeakerIsOpeningKeyword(line: string, keyword: string)
    requires keyword in Speakers && Opens(line, keyword)
    ensures IsHeader(line)
    ensures Title(MatchHeader(line).value.keyword) == keyword
  {
    TitleOfSpeaker(keyword);
    assert line[..|keyword|][0] == line[0] && line[..|keyword|][1] == line[1];
    LetterIgnoresCase(line[..|keyword|], keyword, 0);
    LetterIgnoresCase(line[..|keyword|], keyword, 1);
    if keyword == "Doctor" {
      SpeakerOfKeyword(line, "Doctor");
    } else {
      assert !Opens(line, "Doctor") by {
        if Opens(line, "Doctor") {
          assert line[..6][0] == line[0];
          LetterIgnoresCase(line[..6], "Doctor", 0);
          assert false;
        }
      }
      if keyword == "Physician" {
        SpeakerOfKeyword(line, "Physician");
      } else {
        assert !Opens(line, "Physician") by {
          if Opens(line, "Physician") {
            assert line[..9][1] == line[1];
            LetterIgnoresCase(line[..9], "Physician", 1);
            assert false;
          }
        }
        SpeakerOfKeyword(line, "Patient");
      }
    }
  }

  /** Every speaker is "Doctor", "Physician" or "Patient". */
  lemma {:induction false} SpeakersAreKeywords(lines: seq<string>)
    ensures forall i :: 0 <= i < |TurnsFrom(lines)| ==> TurnsFrom(lines)[i].speaker in Speakers
    decreases |lines|
  {
    if lines != [] {
      if IsHeader(lines[0]) {
        var h := MatchHeader(lines[0]).value;
        var k := ContinuationLength(lines[1..]);
        var tail := lines[1..][k..];
        var turn := Turn(Title(h.keyword), JoinWith(" ", [h.rest] + lines[1..][..k]));
        assert TurnsFrom(lines) == [turn] + TurnsFrom(tail);
        SpeakerOfHeader(lines[0]);
        SpeakersAreKeywords(tail);
        SpeakersCons(turn, TurnsFrom(tail));
      } else {
        SpeakersAreKeywords(lines[1..]);
      }
    }
  }

  lemma SpeakersCons(turn: Turn, turns: seq<Turn>)
    requires turn.speaker in Speakers
    requires forall i :: 0 <= i < |turns| ==> turns[i].speaker in Speakers
    ensures forall i :: 0 <= i < |[turn] + turns| ==> ([turn] + turns)[i].speaker in Speakers
  {
  }

  lemma {:induction false} SignificantAppend(a: seq<string>, b: seq<string>)
    ensures Significant(a + b) == Significant(a) + Significant(b)
    decreases |a|
  {
    if a == [] {
      assert a + b == b;
    } else {
      assert (a + b)[0] == a[0] && (a + b)[1..] == a[1..] + b;
      SignificantAppend(a[1..], b);
      var s := Strip(a[0]);
      ConcatAssoc(if s == [] then [] else [s], Significant(a[1..]), Significant(b));
    }
  }

  lemma SignificantOfBlank(blank: string)
    requires Strip(blank) == []
    ensures Significant([blank]) == []
  {
    assert [blank][1..] == [];
  }

  /** A blank or whitespace-only line, wherever it stands, changes nothing. */
  lemma BlankLineIgnored(before: seq<string>, blank: string, after: seq<string>)
    requires Strip(blank) == []
    ensures TurnsFrom(Significant(before + [blank] + after)) == TurnsFrom(Significant(before + after))
  {
    SignificantAppend(before + [blank], after);
    SignificantAppend(before, [blank]);
    SignificantAppend(before, after);
    SignificantOfBlank(blank);
    AppendEmpty(Significant(before));
  }

  // ---------------------------------------------------------------------------
  // extract_patient_text

  /** Python's `needle in hay` on strings. */
  predicate Contains(hay: string, needle: string)
    decreases |hay|
  {
    (|needle| <= |hay| && hay[..|needle|] == needle) || (hay != [] && Contains(hay[1..], needle))
  }

  /** The texts of the turns whose speaker contains "Patient", in order. */
  function PatientTexts(conversation: seq<Turn>): seq<string> {
    if conversation == [] then []
    else
      (if Contains(conversation[0].speaker, "Patient") then [conversation[0].text] else [])
      + PatientTexts(conversation[1..])
  }

  /** `extract_patient_text(conversation)`. */
  function ExtractPatientText(conversation: seq<Turn>): string {
    JoinWith(" ", PatientTexts(conversation))
  }

  /** The patient texts of two stretches of dialogue are those of each, in dialogue order. */
  lemma {:induction false} PatientTextsAppend(a: seq<Turn>, b: seq<Turn>)
    ensures PatientTexts(a + b) == PatientTexts(a) + PatientTexts(b)
    decreases |a|
  {
    if a == [] {
      assert a + b == b;
    } else {
      assert (a + b)[0] == a[0] && (a + b)[1..] == a[1..] + b;
      PatientTextsAppend(a[1..], b);
      ConcatAssoc(if Contains(a[0].speaker, "Patient") then [a[0].text] else [],
                  PatientTexts(a[1..]), PatientTexts(b));
    }
  }

  /** Without a patient turn the patient text is empty. */
  lemma {:induction false} NoPatientNoText(conversation: seq<Turn>)
    requires forall i :: 0 <= i < |conversation| ==> !Contains(conversation[i].speaker, "Patient")
    ensures PatientTexts(conversation) == []
    ensures ExtractPatientText(conversation) == ""
    decreases |conversation|
  {
    if conversation != [] {
      NoPatientNoText(conversation[1..]);
    }
  }

  lemma {:induction false} ShorterContainsNothing(hay: string, needle: string)
    requires |hay| < |needle|
    ensures !Contains(hay, needle)
    decreases |hay|
  {
    if hay != [] {
      ShorterContainsNothing(hay[1..], needle);
    }
  }

  /** Among the three speakers only "Patient" contains "Patient": "Doctor" and "Physician" turns never reach the sentiment text. */
  lemma OnlyPatientIsPatient(speaker: string)
    requires speaker in Speakers
    ensures Contains(speaker, "Patient") <==> speaker == "Patient"
  {
    if speaker == "Doctor" {
      ShorterContainsNothing(speaker, "Patient");
    } else if speaker == "Physician" {
      var p := "Physician";
      assert p[..7] != "Patient" by { assert p[..7][1] == 'h'; }
      assert p[1..][..7] != "Patient" by { assert p[1..][..7][1] == 'y'; }
      assert p[2..][..7] != "Patient" by { assert p[2..][..7][1] == 's'; }
      ShorterContainsNothing(p[3..], "Patient");
      assert p[1..][1..] == p[2..] && p[2..][1..] == p[3..];
    } else {
      assert speaker[..7] == "Patient";
    }
  }
}
