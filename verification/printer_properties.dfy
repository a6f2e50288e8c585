/** Properties of the printed output of `parse_response`, each relating the
    lines to the shape of the JSON input. */
module PrinterProperties {
  import opened Wrappers
  import opened Json
  import opened Printer
  import CText
  import Decimal
  import Seqs

  // ---------------------------------------------------------------------------
  // Root level

  /** The count line reads back, after its label, as the number it reports. */
  lemma CountLineReadsBack(n: nat)
    ensures StartsWith(CountLine(n), CountLabel)
    ensures Decimal.AllDigits(CountLine(n)[|CountLabel|..])
    ensures Decimal.Value(CountLine(n)[|CountLabel|..]) == n
  {
    assert CountLine(n)[|CountLabel|..] == Decimal.Show(n);
    Decimal.ValueOfShow(n);
  }

  /** The output is the single parse-error line exactly when parsing failed,
      the single not-an-array line exactly when the root is some other value,
      and otherwise opens with the count line. */
  lemma OutcomeCases(root: Option<Json>)
    ensures ResponseLines(root) == [ParseErrorLine] <==> root.None?
    ensures ResponseLines(root) == [NotArrayLine] <==> root.Some? && !root.value.JArray?
    ensures StartsWith(ResponseLines(root)[0], CountLabel) <==> root.Some? && root.value.JArray?
  {
    assert ParseErrorLine[0] == 'E' && NotArrayLine[0] == 'R' && CountLabel[0] == 'N';
    if root.Some? && root.value.JArray? {
      var count := CountLine(|root.value.items|);
      assert ResponseLines(root)[0] == count;
      assert count[0] == 'N';
    }
  }

  /** An array root prints its length first and then the entries' blocks. */
  lemma ArrayRoot(items: seq<Json>)
    ensures ResponseLines(Some(JArray(items))) == [CountLine(|items|)] + EntriesLines(items)
    ensures Decimal.Value(ResponseLines(Some(JArray(items)))[0][|CountLabel|..]) == |items|
  {
    var r := ResponseLines(Some(JArray(items)));
    assert r[0] == CountLine(|items|);
    CountLineReadsBack(|items|);
  }

  /** An empty array prints the count line and nothing else. */
  lemma EmptyArrayRoot()
    ensures ResponseLines(Some(JArray([]))) == ["Number of definitions: 0"]
  {
    assert Decimal.Show(0) == "0";
    assert CountLine(0) == CountLabel + "0" == "Number of definitions: 0";
    assert EntriesLines([]) == [];
  }

  /** Element `i`'s block appears, whole, right after the blocks of elements
      `0 .. i-1`. */
  lemma BlockInEntries(items: seq<Json>, i: nat)
    requires i < |items|
    ensures var offset := |EntriesLines(items[..i])|;
            var block := EntryLines(items[i]);
            offset + |block| <= |EntriesLines(items)| &&
            EntriesLines(items)[offset .. offset + |block|] == block
  {
    Seqs.FlatMapSplit(EntryLines, items, i);
    Seqs.SliceOfJoin(EntriesLines(items[..i]), EntryLines(items[i]), EntriesLines(items[i + 1..]));
  }

  /** In the whole output, element `i`'s block follows the count line and the
      blocks of elements `0 .. i-1`: the output is in index order. */
  lemma BlockInPlace(items: seq<Json>, i: nat)
    requires i < |items|
    ensures var offset := 1 + |EntriesLines(items[..i])|;
            var block := EntryLines(items[i]);
            offset + |block| <= |ResponseLines(Some(JArray(items)))| &&
            ResponseLines(Some(JArray(items)))[offset .. offset + |block|] == block
  {
    var offset := |EntriesLines(items[..i])|;
    var block := EntryLines(items[i]);
    var entries := EntriesLines(items);
    BlockInEntries(items, i);
    ArrayRoot(items);
    assert ResponseLines(Some(JArray(items))) == [CountLine(|items|)] + entries;
    Seqs.SliceAfter([CountLine(|items|)], entries, offset, offset + |block|);
  }

  // ---------------------------------------------------------------------------
  // Word lines: exactly one per element

  /** A line reporting an element's `word` field, valid or not. */
  predicate IsWordLine(line: string)
  {
    StartsWith(line, WordLabel) || line == WordMissingLine
  }

  function WordLineCount(lines: seq<string>): (n: nat)
    ensures n <= |lines|
  {
    if |lines| == 0 then 0
    else WordLineCount(lines[..|lines| - 1]) + (if IsWordLine(lines[|lines| - 1]) then 1 else 0)
  }

  lemma {:induction false} WordLineCountAppend(a: seq<string>, b: seq<string>)
    ensures WordLineCount(a + b) == WordLineCount(a) + WordLineCount(b)
    decreases |b|
  {
    if |b| == 0 {
      assert a + b == a;
    } else {
      var b' := b[..|b| - 1];
      assert (a + b)[..|a + b| - 1] == a + b';
      assert (a + b)[|a + b| - 1] == b[|b| - 1];
      WordLineCountAppend(a, b');
    }
  }

  /** A line whose first character is not `W` is not a word line. */
  lemma NotWordLine(line: string)
    requires |line| > 0 && line[0] != 'W'
    ensures !IsWordLine(line)
  {
    assert WordLabel[0] == 'W';
    assert WordMissingLine[0] == 'W';
  }

  /** Every line of `lines` is non-empty and opens with `c`. */
  predicate AllOpenWith(lines: seq<string>, c: char)
  {
    forall k :: 0 <= k < |lines| ==> |lines[k]| > 0 && lines[k][0] == c
  }

  /** A field line opens with the shared first character of its tag and its
      diagnostic. */
  lemma FieldLineFirst(tag: string, field: Option<Json>, missing: string)
    requires |tag| > 0 && |missing| > 0 && tag[0] == missing[0]
    ensures |FieldLine(tag, field, missing)| > 0 && FieldLine(tag, field, missing)[0] == tag[0]
  {
  }

  /** The lines after the word line report meanings, parts of speech or
      definitions. */
  lemma EntryTail(entry: Json)
    ensures var tail := EntryLines(entry)[1..];
            AllOpenWith(tail, 'M') || (|tail| > 0 && tail[0][0] == 'P' && AllOpenWith(tail[1..], 'D'))
            || tail == []
  {
    var meanings := Get(entry, "meanings");
    var tail := EntryLines(entry)[1..];
    if !IsArray(meanings) {
      assert tail == [MeaningsMissingLine];
      assert MeaningsMissingLine[0] == 'M';
    } else if |meanings.value.items| > 0 {
      var m := meanings.value.items[0];
      assert tail == [PartOfSpeechLine(m)] + DefinitionLines(m);
      FieldLineFirst(PartOfSpeechLabel, Get(m, "partOfSpeech"), PartOfSpeechMissingLine);
      var defs := Get(m, "definitions");
      if IsArray(defs) && |defs.value.items| > 0 {
        FieldLineFirst(DefinitionLabel, Get(defs.value.items[0], "definition"), DefinitionMissingLine);
      } else if !IsArray(defs) {
        assert DefinitionsMissingLine[0] == 'D';
      }
      assert tail[1..] == DefinitionLines(m);
    }
  }

  /** Every element prints exactly one word line. */
  lemma EntryHasOneWordLine(entry: Json)
    ensures WordLineCount(EntryLines(entry)) == 1
  {
    var r := EntryLines(entry);
    var tail := r[1..];
    assert IsWordLine(r[0]) by {
      if IsString(Get(entry, "word")) {
        assert (WordLabel + CText.Shown(Get(entry, "word").value.text))[..|WordLabel|] == WordLabel;
      }
    }
    EntryTail(entry);
    if |tail| > 0 && tail[0][0] == 'P' && AllOpenWith(tail[1..], 'D') {
      NoWordLines(tail[1..], 'D');
      NotWordLine(tail[0]);
      WordLineCountAppend([tail[0]], tail[1..]);
      assert [tail[0]][..0] == [];
      assert tail == [tail[0]] + tail[1..];
    } else {
      NoWordLines(tail, 'M');
    }
    assert r == [r[0]] + tail;
    WordLineCountAppend([r[0]], tail);
    assert [r[0]][..0] == [];
  }

  /** Lines opening with a character other than `W` hold no word line. */
  lemma {:induction false} NoWordLines(lines: seq<string>, c: char)
    requires c != 'W' && AllOpenWith(lines, c)
    ensures WordLineCount(lines) == 0
    decreases |lines|
  {
    if |lines| > 0 {
      NoWordLines(lines[..|lines| - 1], c);
      NotWordLine(lines[|lines| - 1]);
    }
  }

  /** The blocks of `items` hold exactly `|items|` word lines. */
  lemma {:induction false} EntriesWordLines(items: seq<Json>)
    ensures WordLineCount(EntriesLines(items)) == |items|
    decreases |items|
  {
    if |items| > 0 {
      var init := items[..|items| - 1];
      EntriesWordLines(init);
      EntryHasOneWordLine(items[|items| - 1]);
      WordLineCountAppend(EntriesLines(init), EntryLines(items[|items| - 1]));
    }
  }

  /** For an array root of `N` elements the output holds exactly `N` word lines. */
  lemma ResponseWordLines(items: seq<Json>)
    ensures WordLineCount(ResponseLines(Some(JArray(items)))) == |items|
  {
    var count := CountLine(|items|);
    assert count[0] == 'N';
    NotWordLine(count);
    EntriesWordLines(items);
    WordLineCountAppend([count], EntriesLines(items));
    assert [count][..0] == [];
  }

  // ---------------------------------------------------------------------------
  // One element

  /** The word line shows the `word` text exactly when `word` is a string. */
  lemma WordLineCases(entry: Json)
    ensures IsString(Get(entry, "word")) ==>
              WordLine(entry) == WordLabel + CText.Shown(Get(entry, "word").value.text)
    ensures !IsString(Get(entry, "word")) ==> WordLine(entry) == WordMissingLine
    ensures StartsWith(WordLine(entry), WordLabel) <==> IsString(Get(entry, "word"))
  {
    if IsString(Get(entry, "word")) {
      assert (WordLabel + CText.Shown(Get(entry, "word").value.text))[..|WordLabel|] == WordLabel;
    } else {
      assert WordMissingLine[4] != WordLabel[4];
    }
  }

  /** The part-of-speech line shows the `partOfSpeech` text exactly when it is
      a string. */
  lemma PartOfSpeechCases(meaning: Json)
    ensures IsString(Get(meaning, "partOfSpeech")) ==>
              PartOfSpeechLine(meaning) == PartOfSpeechLabel + CText.Shown(Get(meaning, "partOfSpeech").value.text)
    ensures !IsString(Get(meaning, "partOfSpeech")) ==> PartOfSpeechLine(meaning) == PartOfSpeechMissingLine
    ensures StartsWith(PartOfSpeechLine(meaning), PartOfSpeechLabel) <==> IsString(Get(meaning, "partOfSpeech"))
  {
    if IsString(Get(meaning, "partOfSpeech")) {
      var text := CText.Shown(Get(meaning, "partOfSpeech").value.text);
      assert (PartOfSpeechLabel + text)[..|PartOfSpeechLabel|] == PartOfSpeechLabel;
    } else {
      assert PartOfSpeechMissingLine[8] != PartOfSpeechLabel[8];
    }
  }

  /** Without a `meanings` array the block is the word line and one diagnostic. */
  lemma MeaningsInvalid(entry: Json)
    requires !IsArray(Get(entry, "meanings"))
    ensures EntryLines(entry) == [WordLine(entry), MeaningsMissingLine]
  {
  }

  /** An empty `meanings` array adds nothing after the word line. */
  lemma MeaningsEmpty(entry: Json)
    requires Get(entry, "meanings") == Some(JArray([]))
    ensures EntryLines(entry) == [WordLine(entry)]
  {
  }

  /** With a non-empty `meanings` array only meaning 0 is reported. */
  lemma FirstMeaningReported(entry: Json)
    requires IsArray(Get(entry, "meanings")) && |Get(entry, "meanings").value.items| > 0
    ensures var m := Get(entry, "meanings").value.items[0];
            EntryLines(entry) == [WordLine(entry), PartOfSpeechLine(m)] + DefinitionLines(m)
  {
  }

  /** Meanings after index 0 print nothing: two elements that agree on `word`
      and on meaning 0 print the same block, whatever their other meanings. */
  lemma LaterMeaningsSilent(e1: Json, e2: Json)
    requires Get(e1, "word") == Get(e2, "word")
    requires IsArray(Get(e1, "meanings")) && IsArray(Get(e2, "meanings"))
    requires |Get(e1, "meanings").value.items| > 0 && |Get(e2, "meanings").value.items| > 0
    requires Get(e1, "meanings").value.items[0] == Get(e2, "meanings").value.items[0]
    ensures EntryLines(e1) == EntryLines(e2)
  {
  }

  /** The definition step of meaning 0, case by case. */
  lemma DefinitionCases(meaning: Json)
    ensures !IsArray(Get(meaning, "definitions")) ==>
              DefinitionLines(meaning) == [DefinitionsMissingLine]
    ensures Get(meaning, "definitions") == Some(JArray([])) ==>
              DefinitionLines(meaning) == []
    ensures IsArray(Get(meaning, "definitions")) && |Get(meaning, "definitions").value.items| > 0 ==>
              var d := Get(Get(meaning, "definitions").value.items[0], "definition");
              DefinitionLines(meaning) ==
                [if IsString(d) then DefinitionLabel + CText.Shown(d.value.text) else DefinitionMissingLine]
  {
  }

  /** Definitions after index 0 print nothing. */
  lemma LaterDefinitionsSilent(m1: Json, m2: Json)
    requires IsArray(Get(m1, "definitions")) && IsArray(Get(m2, "definitions"))
    requires |Get(m1, "definitions").value.items| > 0 && |Get(m2, "definitions").value.items| > 0
    requires Get(m1, "definitions").value.items[0] == Get(m2, "definitions").value.items[0]
    ensures DefinitionLines(m1) == DefinitionLines(m2)
  {
  }

  /** An element of the shape the dictionary service returns prints exactly a
      word line, a part-of-speech line and a definition line. */
  lemma WellFormedEntry(entry: Json, word: string, partOfSpeech: string, definition: string)
    requires Get(entry, "word") == Some(JString(word))
    requires IsArray(Get(entry, "meanings")) && |Get(entry, "meanings").value.items| > 0
    requires var m := Get(entry, "meanings").value.items[0];
             Get(m, "partOfSpeech") == Some(JString(partOfSpeech)) &&
             IsArray(Get(m, "definitions")) && |Get(m, "definitions").value.items| > 0 &&
             Get(Get(m, "definitions").value.items[0], "definition") == Some(JString(definition))
    ensures EntryLines(entry) ==
              [WordLabel + CText.Shown(word),
               PartOfSpeechLabel + CText.Shown(partOfSpeech),
               DefinitionLabel + CText.Shown(definition)]
  {
  }

  /** A one-entry response of the service's usual shape and its exact output. */
  lemma SampleResponse()
    ensures var definition := JObject(map["definition" := JString("a trial")]);
            var meaning := JObject(map["partOfSpeech" := JString("noun"),
                                       "definitions" := JArray([definition])]);
            var entry := JObject(map["word" := JString("test"), "meanings" := JArray([meaning])]);
            ResponseLines(Some(JArray([entry]))) ==
              ["Number of definitions: 1", "Word: test", "Part of Speech: noun", "Definition: a trial"]
  {
    var definition := JObject(map["definition" := JString("a trial")]);
    var meaning := JObject(map["partOfSpeech" := JString("noun"), "definitions" := JArray([definition])]);
    var entry := JObject(map["word" := JString("test"), "meanings" := JArray([meaning])]);
    SampleEntry(entry, meaning, definition);
    SampleOutput(entry);
  }

  lemma SampleEntry(entry: Json, meaning: Json, definition: Json)
    requires definition == JObject(map["definition" := JString("a trial")])
    requires meaning == JObject(map["partOfSpeech" := JString("noun"), "definitions" := JArray([definition])])
    requires entry == JObject(map["word" := JString("test"), "meanings" := JArray([meaning])])
    ensures EntryLines(entry) == ["Word: test", "Part of Speech: noun", "Definition: a trial"]
  {
    SampleFields(entry, meaning, definition);
    WellFormedEntry(entry, "test", "noun", "a trial");
    SampleText();
  }

  lemma SampleOutput(entry: Json)
    requires EntryLines(entry) == ["Word: test", "Part of Speech: noun", "Definition: a trial"]
    ensures ResponseLines(Some(JArray([entry]))) ==
              ["Number of definitions: 1", "Word: test", "Part of Speech: noun", "Definition: a trial"]
  {
    SingleEntry(entry);
    SampleCount();
    var count: string := "Number of definitions: 1";
    assert ResponseLines(Some(JArray([entry]))) == [count] + EntryLines(entry);
  }

  lemma SampleCount()
    ensures CountLine(1) == "Number of definitions: 1"
  {
    assert Decimal.Show(1) == "1";
  }

  lemma SingleEntry(entry: Json)
    ensures ResponseLines(Some(JArray([entry]))) == [CountLine(1)] + EntryLines(entry)
  {
    assert [entry][..0] == [];
    assert Seqs.FlatMap(EntryLines, [entry][..0]) == [];
    assert EntriesLines([entry]) == EntryLines(entry);
  }

  lemma SampleFields(entry: Json, meaning: Json, definition: Json)
    requires definition == JObject(map["definition" := JString("a trial")])
    requires meaning == JObject(map["partOfSpeech" := JString("noun"), "definitions" := JArray([definition])])
    requires entry == JObject(map["word" := JString("test"), "meanings" := JArray([meaning])])
    ensures Get(entry, "word") == Some(JString("test"))
    ensures Get(entry, "meanings") == Some(JArray([meaning]))
    ensures Get(meaning, "partOfSpeech") == Some(JString("noun"))
    ensures Get(meaning, "definitions") == Some(JArray([definition]))
    ensures Get(definition, "definition") == Some(JString("a trial"))
  {
  }

  lemma SampleText()
    ensures WordLabel + CText.Shown("test") == "Word: test"
    ensures PartOfSpeechLabel + CText.Shown("noun") == "Part of Speech: noun"
    ensures DefinitionLabel + CText.Shown("a trial") == "Definition: a trial"
  {
    SampleWord();
    SamplePartOfSpeech();
    SampleDefinition();
  }

  lemma SampleWord()
    ensures WordLabel + CText.Shown("test") == "Word: test"
  {
    ShownPlain("test");
  }

  lemma SamplePartOfSpeech()
    ensures PartOfSpeechLabel + CText.Shown("noun") == "Part of Speech: noun"
  {
    ShownPlain("noun");
  }

  lemma SampleDefinition()
    ensures DefinitionLabel + CText.Shown("a trial") == "Definition: a trial"
  {
    ShownPlain("a trial");
  }

  /** Text without a NUL character is shown whole. */
  lemma ShownPlain(text: string)
    requires '\0' !in text
    ensures CText.Shown(text) == text
  {
  }

  /** A root object (the service's "not found" reply) prints only the
      not-an-array line. */
  lemma ObjectRoot(members: map<string, Json>)
    ensures ResponseLines(Some(JObject(members))) == [NotArrayLine]
  {
  }
}
