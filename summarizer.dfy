/**
 * The request `MedicalSummarizer.summarize` in src/summarizer.py hands to the
 * summarization model: the text cut to 2500 characters, and length bounds
 * clamped from its word count. The model itself is a parameter of the pipeline.
 */
module Summarizer {
  import opened Text

  /** The longest input, in characters, passed to the model. */
  const MaxInputChars: nat := 2500

  /** The arguments the summarization model is called with: the input and the two length bounds, sampling off. */
  datatype Request = Request(input: string, maxLength: nat, minLength: nat, doSample: bool)

  function Min(a: int, b: int): int { if a <= b then a else b }

  function Max(a: int, b: int): int { if a <= b then b else a }

  /** The first 2500 characters of `text`, or all of it when it is shorter. */
  function SafeText(text: string): (safe: string)
    ensures |safe| == Min(|text|, MaxInputChars)
    ensures safe == text[..|safe|]
  {
    if |text| <= MaxInputChars then text else text[..MaxInputChars]
  }

  /** The number of whitespace-separated words of the truncated text. */
  function InputLength(safe: string): nat {
    |Words(safe)|
  }

  /** The upper length bound: six tenths of the word count, rounded down, then clamped to [50, 500]. */
  function MaxLength(inputLen: nat): (m: nat)
    ensures 50 <= m <= 500
  {
    Min(500, Max(50, inputLen * 6 / 10))
  }

  /** The lower length bound: two tenths of the word count, rounded down, at most 20. */
  function MinLength(inputLen: nat): (m: nat)
    ensures m <= 20
  {
    Min(20, inputLen * 2 / 10)
  }

  /** The request `summarize(text)` sends to the model. */
  function RequestFor(text: string): (r: Request)
    ensures |r.input| <= Min(|text|, MaxInputChars) && r.input == text[..|r.input|]
    ensures |text| <= MaxInputChars ==> r.input == text
    ensures 50 <= r.maxLength <= 500 && r.minLength <= 20
    ensures r.minLength < r.maxLength
    ensures !r.doSample
  {
    var safe := SafeText(text);
    var n := InputLength(safe);
    Request(safe, MaxLength(n), MinLength(n), false)
  }

  /** A longer input never gets a smaller bound on the summary. */
  lemma LengthsMonotone(a: nat, b: nat)
    requires a <= b
    ensures MaxLength(a) <= MaxLength(b)
    ensures MinLength(a) <= MinLength(b)
  {
    assert a * 6 / 10 <= b * 6 / 10;
    assert a * 2 / 10 <= b * 2 / 10;
  }

  /** Each word takes a character and all but the last a separator: a text of `n` characters has at most `(n + 1) / 2` words. */
  lemma {:induction false} WordCountBound(s: string)
    ensures 2 * |Words(s)| <= |s| + 1
    decreases |s|
  {
    var t := TrimStart(s);
    if t != [] {
      var w := TakeWord(t);
      var rest := t[|w|..];
      if rest != [] {
        WordsDropSpace(rest);
        WordCountBound(rest[1..]);
      }
    }
  }

  /** The truncated input holds at most 1250 words. */
  lemma InputLengthBound(text: string)
    ensures InputLength(SafeText(text)) <= 1250
  {
    WordCountBound(SafeText(text));
  }
}
