# physician-notetaker: a Dafny model of the text processing around the models

The physician notetaker turns a raw doctor–patient transcript into three JSON documents:
- a medical report,
- a patient sentiment/intent report,
- a SOAP note.

Everything it does beyond calling spaCy, HuggingFace or OpenAI models is deterministic text processing and record assembly. This project models that part and proves what it promises.

- `text.dfy` (module `Text`) covers the Python string operations the code relies on, plus `clean_text` from `src/utils.py`. Whitespace is the full `str.isspace` set; `re`'s `\s` matches the same set. The operations are `strip`, splitting at a newline, `split()` into words, `' '.join`, and the collapse of whitespace runs.
- `transcript.dfy` (module `Transcript`) covers `parse_transcript` and `extract_patient_text` from `src/utils.py`.
  - `ParseTranscript` splits the input into lines and hands them to `ParseLines`. Like the source, `ParseLines` loops over the lines with an open speaker and a list of text pieces; `ReadLine` is one pass of that loop.
  - `ParseTranscript` is proved equal to `Segment`, a declarative grouping of the significant lines into turns.
  - The properties of segmentation are lemmas about `Segment`/`TurnsFrom`.
- `ner.dfy` (module `Ner`) covers `MedicalNER.extract_entities` and `get_keywords` from `src/ner.py`.
  - The two spaCy documents are given as sequences of `(label, text)` entities.
  - `ExtractEntities` builds the dictionary of four lists with the source's two loops and guarded appends. It is proved equal to `EntitiesOf`, which is defined through `Distinct` of label-filtered texts.
  - `GetKeywords` builds a set with a loop and turns it into a list whose order is unspecified.
- `summarizer.dfy` (module `Summarizer`) covers the request that `MedicalSummarizer.summarize` (`src/summarizer.py`) sends to the model: the truncated input and the two length bounds.
- `pipeline.dfy` (module `Pipeline`) covers `main` in `src/pipeline.py`.
  - It models `full_text` and the `medical_report` and `sentiment_report` records.
  - `RunPipeline` is `main` without its I/O. It takes the entity models, the summarizer, the sentiment and intent classifiers and the SOAP generator as function parameters, and relates every field of the output to the raw transcript.
- `wrappers.dfy` holds `Option`, which models Python's `None`-or-value for the open speaker.

## Model

| member | source | states |
|---|---|---|
| Text.TrimStart | src/utils.py:17 | the result is a suffix of the input that does not start with whitespace |
| Text.TrimStartDropsOnlySpaces | src/utils.py:23 | everything `strip` drops at the front is whitespace |
| Text.TrimEndDropsOnlySpaces | src/utils.py:23 | everything `strip` drops at the back is whitespace |
| Text.IsSpace | src/utils.py:9 | `str.isspace()`, which `re`'s `\s` also matches: the 29 whitespace code points, tab to carriage return, the four separators U+001C to U+001F, space, NEL, NBSP and the Unicode space separators, line and paragraph separators |
| Text.TrimEnd | src/utils.py:23 | `str.rstrip()`: the result is a prefix of the input that does not end with whitespace |
| Text.Strip | src/utils.py:23 | `str.strip()` (also at utils.py lines 9 and 17) as `TrimEnd(TrimStart(s))`; the two DropsOnlySpaces rows fix it |
| Text.JoinWith | src/pipeline.py:27 | `sep.join(parts)` (also at utils.py lines 34, 48 and 57): the parts with `sep` between each two; its properties are SplitJoin, WordsOfJoin and WordsOfJoined |
| Text.Split | src/utils.py:17 | splitting at a newline yields at least one piece, and no piece holds a newline |
| Text.SplitJoin | src/utils.py:17 | joining the pieces with the separator gives back the input |
| Text.Words | src/summarizer.py:16 | `str.split()` with no argument: the maximal runs of non-whitespace, in order; its properties are the next two rows |
| Text.WordsAreWords | src/summarizer.py:16 | every piece of `split()` is a non-empty run of non-whitespace characters |
| Text.WordsOfJoin | src/utils.py:9 | helper of the `clean_text` equivalence below: `split()` of the single-space join of a list of words gives back that list |
| Text.Collapse | src/utils.py:9 | `re.sub(r'\s+', ' ', s)`: every maximal whitespace run becomes one space; it is empty exactly when `s` is, and keeps a leading non-space character |
| Text.CleanText | src/utils.py:9 | `clean_text(s)` as `Strip(Collapse(s))`; its properties are the CleanText rows below |
| Text.CleanTextIsJoinedWords | src/utils.py:9 | `clean_text(s)` equals the single-space join of the words of `s` |
| Text.CleanTextNormalized | src/utils.py:9 | `clean_text` output has no whitespace at either end, every whitespace character in it is `' '`, and no two are adjacent |
| Text.CleanTextKeepsWords | src/utils.py:9 | `clean_text` keeps the words of its input, in order |
| Text.CleanTextIdempotent | src/utils.py:9 | `clean_text(clean_text(s)) == clean_text(s)` |
| Text.WordsOfSpaced | src/pipeline.py:27 | the words of `a + ' ' + b` are the words of `a` followed by those of `b` |
| Text.WordsOfJoined | src/pipeline.py:27 | the words of a single-space join are the words of each part, in order |
| Transcript.EqualsIgnoreCase | src/utils.py:28 | the `re.IGNORECASE` comparison: same length, and letters equal once ASCII upper case is folded to lower case |
| Transcript.Title | src/utils.py:37 | `.title()` of one alphabetic word: first letter upper case, the rest lower case; TitleIgnoresCase and SpeakerIsOpeningKeyword are about it |
| Transcript.MatchHeader | src/utils.py:28 | the `re.match` of the header pattern with `re.IGNORECASE`, trying Doctor, Physician, Patient in order; its meaning is the next row |
| Transcript.MatchHeaderMeaning | src/utils.py:28 | the regular expression matches exactly when the line opens with `Doctor:`, `Physician:` or `Patient:` in any case; group 1 is the keyword as written, just before the colon, and group 2 the rest of the line after the colon with leading whitespace removed |
| Transcript.Lines | src/utils.py:17 | `transcript.strip().split('\n')` |
| Transcript.Significant | src/utils.py:22-25 | the lines after `line.strip()`, with the empty ones skipped, in order; BlankLineIgnored is about it |
| Transcript.TurnsFrom | src/utils.py:27-49 | the declarative grouping: each header opens a turn whose text is the header's remainder and the following non-header lines, joined with single spaces; non-header lines before the first header belong to no turn; ParseLines and the segmentation lemmas are about it |
| Transcript.Segment | src/utils.py:12-51 | what `parse_transcript` returns: `TurnsFrom` of the stripped, newline-split, non-blank lines; its properties are the TurnCount to SpeakersAreKeywords rows |
| Transcript.ParseTranscript | src/utils.py:12-51 | the loop's result is `Segment(transcript)`; it has one turn per header line, and every speaker is "Doctor", "Physician" or "Patient" |
| Transcript.ParseLines | src/utils.py:22-49 | the loop with its final flush returns `TurnsFrom` of the stripped non-blank lines |
| Transcript.ReadLine | src/utils.py:28-42 | one pass over a non-blank line keeps the open turn plus the turns still to come unchanged, whether the line is a header or a continuation |
| Transcript.TurnCount | src/utils.py:28-49 | the number of turns equals the number of header lines |
| Transcript.LeadingOrphansDropped | src/utils.py:41 | the non-header lines before the first header change neither the turns nor their number |
| Transcript.NoHeaderNoTurns | src/utils.py:45 | without a header line the result is empty |
| Transcript.BlankLineIgnored | src/utils.py:23-25 | inserting a blank or whitespace-only line anywhere leaves the turns unchanged |
| Transcript.SpeakerOfHeader | src/utils.py:37 | the title-cased keyword of a header line is one of the three speakers |
| Transcript.SpeakersAreKeywords | src/utils.py:37 | every turn's speaker is "Doctor", "Physician" or "Patient" |
| Transcript.SpeakerIsOpeningKeyword | src/utils.py:28 | a line opening with `Keyword:` in any case is a header whose speaker is that keyword, so "Physician" is kept apart from "Doctor" |
| Transcript.TitleIgnoresCase | src/utils.py:37 | title-casing does not depend on the case the keyword was written in |
| Transcript.Contains | src/utils.py:57 | the substring test `'Patient' in speaker`: some position of `s` starts a copy of `sub` |
| Transcript.PatientTexts | src/utils.py:57 | the list comprehension: the texts of the turns whose speaker contains "Patient", in dialogue order |
| Transcript.ExtractPatientText | src/utils.py:53-57 | `extract_patient_text`: the single-space join of the texts of the turns whose speaker contains "Patient"; its properties are the next three rows and Pipeline.PatientTextIsFullTextOfPatients |
| Transcript.PatientTextsAppend | src/utils.py:57 | the patient texts of two parts of a dialogue are those of each part, in order |
| Transcript.NoPatientNoText | src/utils.py:57 | without a turn whose speaker contains "Patient" the patient text is "" |
| Transcript.OnlyPatientIsPatient | src/utils.py:57 | among the three speakers, only "Patient" contains "Patient" |
| Ner.Texts | src/ner.py:30-42 | the texts of the entities whose label is one of the given labels, in document order; TextsMembers is about it |
| Ner.AddNew | src/ner.py:31-44 | the guarded append: `x` joins the end of the list unless the list already holds it |
| Ner.Distinct | src/ner.py:29-44 | the list that guarded appends build from a sequence, element by element; the Distinct rows are about it |
| Ner.EntitiesOf | src/ner.py:21-46 | what `extract_entities` returns: Diseases, Chemicals and Body_Parts are Distinct of the DISEASE, CHEMICAL and ORGAN/TISSUE/SYSTEM_ORGAN_PART texts, Physiological_Processes is empty |
| Ner.ExtractEntities | src/ner.py:17-46 | the two loops return `EntitiesOf` of the entity streams: exactly the four keys; the distinct DISEASE texts, CHEMICAL texts and ORGAN/TISSUE/SYSTEM_ORGAN_PART texts; Physiological_Processes empty; no list holding a string twice |
| Ner.EntitiesShape | src/ner.py:21-44 | the entity dictionary has exactly the four categories, Physiological_Processes is empty, and no category repeats a string |
| Ner.FirstModelStep | src/ner.py:29-35 | one more first-model entity files its text under Diseases or Chemicals by its label, unless the text is there already, and otherwise changes nothing |
| Ner.SecondModelStep | src/ner.py:40-44 | one more second-model entity files its text under Body_Parts when its label is relevant, unless the text is there already |
| Ner.DistinctNoDuplicates | src/ner.py:31 | a list built by guarded appends never holds a string twice |
| Ner.DistinctMembers | src/ner.py:29-44 | such a list holds exactly the strings it was built from |
| Ner.DistinctOrderAt | src/ner.py:29-44 | of two strings in such a list, the one seen first in the input comes first |
| Ner.DistinctFirstOccurrenceOrder | src/ner.py:29-44 | each category list is in order of first occurrence |
| Ner.TextsMembers | src/ner.py:30-42 | a string is among the texts kept for a set of labels iff some entity with one of those labels has that text |
| Ner.GetKeywords | src/ner.py:48-56 | the keywords hold no duplicate, and a string is a keyword iff it is in one of the four category lists |
| Ner.ListOf | src/ner.py:56 | the list made from a set holds each member once and nothing else |
| Ner.KeywordsAreEntityTexts | src/ner.py:48-56 | a string is in some category iff it is the text of a first-model DISEASE or CHEMICAL entity or of a second-model ORGAN, TISSUE or SYSTEM_ORGAN_PART entity |
| Summarizer.SafeText | src/summarizer.py:13 | the model input is a prefix of the text of length `min(len(text), 2500)` |
| Summarizer.InputLength | src/summarizer.py:16 | `input_len`: the number of words of the truncated text; bounded by Summarizer.InputLengthBound |
| Summarizer.MaxLength | src/summarizer.py:17 | `max_len` lies in [50, 500] |
| Summarizer.MinLength | src/summarizer.py:18 | `min_len` is at most 20 |
| Summarizer.RequestFor | src/summarizer.py:13-20 | the request carries a prefix of at most 2500 characters, equal to the text when the text is short enough, `50 <= max_length <= 500`, `min_length <= 20 < max_length`, and no sampling |
| Summarizer.LengthsMonotone | src/summarizer.py:17-18 | more words never lower `max_len` or `min_len` |
| Summarizer.WordCountBound | src/summarizer.py:16 | a text of n characters has at most (n + 1) / 2 words |
| Summarizer.InputLengthBound | src/summarizer.py:13-16 | the word count the bounds are computed from is at most 1250 |
| Pipeline.TurnTexts | src/pipeline.py:27 | one text per turn, the i-th being the i-th turn's text |
| Pipeline.FullText | src/pipeline.py:27 | `full_text`: the turn texts joined with single spaces; its properties are the next two rows |
| Pipeline.FullTextWords | src/pipeline.py:27 | the words of `full_text` are the words of each turn, in dialogue order |
| Pipeline.FullTextKeepsAllText | src/pipeline.py:27 | joining the turn texts gives back the content of every significant line from the first header on, header prefixes removed; only the lines before the first header are lost |
| Pipeline.PatientTextIsFullTextOfPatients | src/utils.py:57 | the patient text is the single-space join of the texts of the turns whose speaker contains "Patient", in order |
| Pipeline.OnlyPatientTurns | src/utils.py:57 | when every turn is the patient's, the patient text and `full_text` coincide |
| Pipeline.GetOrEmpty | src/pipeline.py:58-60 | `entities.get(key, [])`: the list filed under the key, or `[]` when the key is absent |
| Pipeline.MedicalReportOf | src/pipeline.py:56-65 | Patient_Name is "Janet Jones"; Current_Status and Prognosis are "See summary"; Symptoms and Diagnosis are the Diseases list and Treatment the Chemicals list, or [] when the key is absent; Summary and Keywords are passed through |
| Pipeline.RunPipeline | src/pipeline.py:25-74 | from the raw transcript: Symptoms = Diagnosis = the distinct DISEASE texts of the first model on `full_text`; Treatment = its distinct CHEMICAL texts; Summary = the summarizer's answer to `RequestFor(full_text)`; Keywords are duplicate-free with exactly the union of the categories as members; the sentiment report carries the two classifiers' answers on the patient text unchanged; the SOAP note is the generator's answer on `full_text`, the entities and the summary |

## Left out

- Model loading and inference are parameters, not models. This covers spaCy's documents, the HuggingFace summarization and zero-shot pipelines and the OpenAI SOAP call. `RunPipeline` takes them as total functions, so it assumes each gives the same answer for the same input. That matters for `get_keywords`, which runs both entity models again on `full_text`.
- The SOAP note is an opaque value of a type parameter. The generator's internals and its `{"Error": ...}` fallbacks, in src/soap.py, are not part of this model.
- The sentiment and intent labels are taken as strings. That they always come from the classifiers' three-label lists depends on library behaviour that cannot be seen here.
- File and console I/O are left out: reading `transcript.txt`, the existence check, `save_json`, `print`, `load_dotenv`.
- test.py is a demo script whose report differs from `main`'s. It is not modelled.
- Summarizer.MaxLength and Summarizer.MinLength compute `int(n * 0.6)` and `int(n * 0.2)` as the integer divisions `n * 6 / 10` and `n * 2 / 10`, not as floating-point products.
- Transcript.EqualsIgnoreCase and Transcript.Title fold case over ASCII letters only. Python's `re.IGNORECASE` and `str.title()` also fold some non-ASCII letters, for example U+017F against `s`.
- Transcript.ParseLines keeps the open speaker in an `Option`, where the source tests the truthiness of a string. The two agree because a speaker is always one of three non-empty keywords.
- Speakers are not normalised. `str.title()` of the matched keyword (src/utils.py:37) keeps "Physician" apart from "Doctor", and Transcript.SpeakerIsOpeningKeyword proves it.
- An aborted run is not modelled. `MedicalNER.__init__` re-raises a missing-model `OSError` (src/ner.py:13-15), and `main` (src/pipeline.py:25-74) catches nothing. So a collaborator that raises ends the run before any `save_json`, and no document is written. `RunPipeline`'s function parameters cannot fail, so it always yields all three documents.
