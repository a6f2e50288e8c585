/** `parse_response`: the lines printed for a parsed dictionary response.

    The printer is a validation chain over a fixed-depth JSON shape:
    root array -> entry objects -> `meanings` array -> first meaning ->
    `definitions` array -> first definition. Each step either prints a fixed
    diagnostic and stops descending, or prints a projected field and goes on.
    Every printed line is modelled without its trailing newline. */
module Printer {
  import opened Wrappers
  import opened Json
  import CText
  import Decimal
  import Seqs

  const ParseErrorLine: string := "Error parsing JSON"
  const NotArrayLine: string := "Root object is not an array"
  const WordMissingLine: string := "Word field not found or invalid"
  const MeaningsMissingLine: string := "Meanings field not found or invalid"
  const PartOfSpeechMissingLine: string := "Part of speech field not found or invalid"
  const DefinitionsMissingLine: string := "Definitions field not found or invalid"
  const DefinitionMissingLine: string := "Definition field not found or invalid"

  const CountLabel: string := "Number of definitions: "
  const WordLabel: string := "Word: "
  const PartOfSpeechLabel: string := "Part of Speech: "
  const DefinitionLabel: string := "Definition: "

  predicate StartsWith(line: string, prefix: string)
  {
    |prefix| <= |line| && line[..|prefix|] == prefix
  }

  /** `field` is present and holds a JSON string (the `json_type_string` checks). */
  predicate IsString(field: Option<Json>)
  {
    field.Some? && field.value.JString?
  }

  /** `field` is present and holds a JSON array (the `json_type_array` checks). */
  predicate IsArray(field: Option<Json>)
  {
    field.Some? && field.value.JArray?
  }

  /** `"Number of definitions: %d"` for an array of `n` entries. */
  function CountLine(n: nat): string
  {
    CountLabel + Decimal.Show(n)
  }

  /** One scalar field: `tag` followed by the shown text when the field is a
      string, the fixed diagnostic `missing` otherwise. */
  function FieldLine(tag: string, field: Option<Json>, missing: string): string
  {
    if IsString(field) then tag + CText.Shown(field.value.text) else missing
  }

  function WordLine(entry: Json): string
  {
    FieldLine(WordLabel, Get(entry, "word"), WordMissingLine)
  }

  function PartOfSpeechLine(meaning: Json): string
  {
    FieldLine(PartOfSpeechLabel, Get(meaning, "partOfSpeech"), PartOfSpeechMissingLine)
  }

  /** The lines for the `definitions` step of the first meaning: a diagnostic when
      it is not an array, nothing when it is an empty array, and otherwise the
      line for element 0 alone. */
  function DefinitionLines(meaning: Json): (r: seq<string>)
    ensures |r| <= 1
    ensures |r| == 0 <==> IsArray(Get(meaning, "definitions")) && |Get(meaning, "definitions").value.items| == 0
  {
    var definitions := Get(meaning, "definitions");
    if !IsArray(definitions) then [DefinitionsMissingLine]
    else if |definitions.value.items| == 0 then []
    else [FieldLine(DefinitionLabel, Get(definitions.value.items[0], "definition"), DefinitionMissingLine)]
  }

  /** The lines for meaning 0: its part of speech, then its definition step. */
  function MeaningLines(meaning: Json): (r: seq<string>)
    ensures 1 <= |r| <= 2
    ensures r[0] == PartOfSpeechLine(meaning)
    ensures r[1..] == DefinitionLines(meaning)
  {
    [PartOfSpeechLine(meaning)] + DefinitionLines(meaning)
  }

  /** The block printed for one element of the root array. */
  function EntryLines(entry: Json): (r: seq<string>)
    ensures 1 <= |r| <= 3
    ensures r[0] == WordLine(entry)
  {
    var meanings := Get(entry, "meanings");
    [WordLine(entry)] +
      if !IsArray(meanings) then [MeaningsMissingLine]
      else if |meanings.value.items| == 0 then []
      else MeaningLines(meanings.value.items[0])
  }

  /** The blocks of `items`, in index order. */
  function EntriesLines(items: seq<Json>): (r: seq<string>)
    ensures |items| <= |r| <= 3 * |items|
  {
    assert forall entry :: 1 <= |EntryLines(entry)| <= 3;
    Seqs.FlatMapBounds(EntryLines, items, 1, 3);
    Seqs.FlatMap(EntryLines, items)
  }

  /** Everything `parse_response` prints for the parse result `root`, where
      `None` is a NULL result from `json_tokener_parse`. */
  function ResponseLines(root: Option<Json>): (r: seq<string>)
    ensures |r| >= 1
  {
    match root
    case None => [ParseErrorLine]
    case Some(JArray(items)) => [CountLine(|items|)] + EntriesLines(items)
    case Some(_) => [NotArrayLine]
  }
}
