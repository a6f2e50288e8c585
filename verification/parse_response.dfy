/** `parse_response` written the way the C function runs: an outer loop over
    the root array and an inner loop over every meaning, printing only at
    meaning index 0. Its output is proved to be the declarative `ResponseLines`. */
module ParseResponse {
  import opened Wrappers
  import opened Json
  import opened Printer
  import CText

  /** What `parse_response` prints for the parse result `root`. */
  method PrintResponse(root: Option<Json>) returns (out: seq<string>)
    ensures out == ResponseLines(root)
  {
    if root.None? {
      return [ParseErrorLine];
    }
    if !root.value.JArray? {
      return [NotArrayLine];
    }
    var items := root.value.items;
    out := [CountLine(|items|)];
    var i := 0;
    while i < |items|
      invariant 0 <= i <= |items|
      invariant out == [CountLine(|items|)] + EntriesLines(items[..i])
    {
      var block := PrintEntry(items[i]);
      out := out + block;
      assert items[..i + 1][..i] == items[..i];
      i := i + 1;
    }
    assert items[..i] == items;
  }

  /** One pass of the outer loop: the block for element `obj`. */
  method PrintEntry(obj: Json) returns (out: seq<string>)
    ensures out == EntryLines(obj)
  {
    var meanings := Get(obj, "meanings");
    var word := Get(obj, "word");
    if word.Some? && word.value.JString? {
      out := [WordLabel + CText.Shown(word.value.text)];
    } else {
      out := [WordMissingLine];
    }
    if meanings.Some? && meanings.value.JArray? {
      var rest := PrintMeanings(meanings.value.items);
      out := out + rest;
    } else {
      out := out + [MeaningsMissingLine];
    }
  }

  /** The inner loop: every meaning is visited, only index 0 prints. */
  method PrintMeanings(ms: seq<Json>) returns (out: seq<string>)
    ensures out == if |ms| == 0 then [] else MeaningLines(ms[0])
  {
    out := [];
    var j := 0;
    while j < |ms|
      invariant 0 <= j <= |ms|
      invariant out == if j == 0 then [] else MeaningLines(ms[0])
    {
      var meaning := ms[j];
      var partOfSpeech := Get(meaning, "partOfSpeech");
      var definitions := Get(meaning, "definitions");
      if j == 0 {
        if partOfSpeech.Some? && partOfSpeech.value.JString? {
          out := out + [PartOfSpeechLabel + CText.Shown(partOfSpeech.value.text)];
        } else {
          out := out + [PartOfSpeechMissingLine];
        }
        if definitions.Some? && definitions.value.JArray? {
          if |definitions.value.items| > 0 {
            var definition := Get(definitions.value.items[0], "definition");
            if definition.Some? && definition.value.JString? {
              out := out + [DefinitionLabel + CText.Shown(definition.value.text)];
            } else {
              out := out + [DefinitionMissingLine];
            }
          }
        } else {
          out := out + [DefinitionsMissingLine];
        }
      }
      j := j + 1;
    }
  }
}
