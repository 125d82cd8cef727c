/**
 * Line-delimited JSON as the notebook helpers read it: `parse_json_objects`
 * and the answer extraction of `get_results`. The JSON parser is a partial
 * function `parse` and UTF-8 decoding a partial function `decode`; `None`
 * means the call raises.
 */
module JsonLines {
  import opened Wrappers
  import opened Text
  import opened BatchResults

  /** `parse_json_objects` accepts either bytes or a string. */
  datatype Payload = Bytes(data: seq<bv8>) | Str(text: string)

  /** The text to split: bytes are decoded first. */
  function TextOf(p: Payload, decode: seq<bv8> -> Option<string>): Option<string> {
    match p
    case Bytes(data) => decode(data)
    case Str(text) => Some(text)
  }

  /** `data_string.strip().split('\n')` */
  function Lines(text: string): seq<string> {
    Split(Strip(text), '\n')
  }

  /** The parse of every line that parses, in order; the others are dropped. */
  function ParsedLines<J>(lines: seq<string>, parse: string -> Option<J>): seq<J> {
    if lines == [] then []
    else (match parse(lines[0]) case Some(j) => [j] case None => []) + ParsedLines(lines[1..], parse)
  }

  /** What `parse_json_objects` returns, or `None` when decoding raises. */
  function ParseSpec<J>(p: Payload, decode: seq<bv8> -> Option<string>, parse: string -> Option<J>): Option<seq<J>> {
    match TextOf(p, decode)
    case None => None
    case Some(text) => Some(ParsedLines(Lines(text), parse))
  }

  /** Parsing distributes over concatenation of the line list. */
  lemma {:induction false} ParsedLinesAppend<J>(a: seq<string>, b: seq<string>, parse: string -> Option<J>)
    ensures ParsedLines(a + b, parse) == ParsedLines(a, parse) + ParsedLines(b, parse)
    decreases |a|
  {
    if a != [] {
      var head := match parse(a[0]) case Some(j) => [j] case None => [];
      assert (a + b)[0] == a[0];
      assert (a + b)[1..] == a[1..] + b;
      assert ParsedLines(a + b, parse) == head + ParsedLines(a[1..] + b, parse);
      ParsedLinesAppend(a[1..], b, parse);
      assert ParsedLines(a, parse) == head + ParsedLines(a[1..], parse);
    } else {
      assert a + b == b;
    }
  }

  /**
   * `parse_json_objects`: decode bytes, strip, split on '\n', and keep, in
   * order, the parse of every line that parses; a line that fails is skipped.
   */
  method ParseJsonObjects<J>(dataString: Payload, decode: seq<bv8> -> Option<string>, parse: string -> Option<J>)
    returns (jsonObjects: Option<seq<J>>)
    ensures jsonObjects.None? <==> TextOf(dataString, decode).None?
    ensures jsonObjects.Some? ==>
              jsonObjects.value == ParsedLines(Lines(TextOf(dataString, decode).value), parse)
              && |jsonObjects.value| <= |Lines(TextOf(dataString, decode).value)|
    ensures jsonObjects == ParseSpec(dataString, decode, parse)
  {
    var text: string;
    if dataString.Bytes? {
      var decoded := decode(dataString.data);
      if decoded.None? {
        return None;
      }
      text := decoded.value;
    } else {
      text := dataString.text;
    }
    var jsonStrings := Split(Strip(text), '\n');
    var objects: seq<J> := [];
    for i := 0 to |jsonStrings|
      invariant objects == ParsedLines(jsonStrings[..i], parse)
    {
      var jsonStr := jsonStrings[i];
      ParsedLinesAppend(jsonStrings[..i], [jsonStr], parse);
      assert jsonStrings[..i + 1] == jsonStrings[..i] + [jsonStr];
      var jsonObj := parse(jsonStr);
      if jsonObj.Some? {
        objects := objects + [jsonObj.value];
      }
    }
    assert jsonStrings[..|jsonStrings|] == jsonStrings;
    ParsedLinesBound(jsonStrings, parse);
    jsonObjects := Some(objects);
  }

  /** At most one object per line. */
  lemma {:induction false} ParsedLinesBound<J>(lines: seq<string>, parse: string -> Option<J>)
    ensures |ParsedLines(lines, parse)| <= |lines|
    decreases |lines|
  {
    if lines != [] {
      ParsedLinesBound(lines[1..], parse);
    }
  }

  /** A line that does not parse is skipped without affecting the lines around it. */
  lemma {:induction false} SkipsUnparsableLine<J>(before: seq<string>, bad: string, after: seq<string>, parse: string -> Option<J>)
    requires parse(bad).None?
    ensures ParsedLines(before + [bad] + after, parse) == ParsedLines(before, parse) + ParsedLines(after, parse)
  {
    assert [bad][1..] == [];
    assert ParsedLines([bad], parse) == [];
    ParsedLinesAppend(before, [bad], parse);
    assert ParsedLines(before + [bad], parse) == ParsedLines(before, parse);
    ParsedLinesAppend(before + [bad], after, parse);
  }

  /** When every line parses, there is one object per line, in line order. */
  lemma {:induction false} AllLinesParse<J>(lines: seq<string>, parse: string -> Option<J>)
    requires forall i :: 0 <= i < |lines| ==> parse(lines[i]).Some?
    ensures |ParsedLines(lines, parse)| == |lines|
    ensures forall i :: 0 <= i < |lines| ==> ParsedLines(lines, parse)[i] == parse(lines[i]).value
    decreases |lines|
  {
    if lines != [] {
      AllLinesParse(lines[1..], parse);
    }
  }

  /** The lines hold no '\n' and, joined back with '\n', give the stripped input. */
  lemma LinesRejoin(text: string)
    ensures forall i :: 0 <= i < |Lines(text)| ==> '\n' !in Lines(text)[i]
    ensures Join(Lines(text), "\n") == Strip(text)
  {
    SplitJoin(Strip(text), '\n');
  }

  /** Bytes are decoded first, so bytes and the string they decode to give the same objects. */
  lemma BytesAndTextAgree<J>(data: seq<bv8>, text: string, decode: seq<bv8> -> Option<string>, parse: string -> Option<J>)
    requires decode(data) == Some(text)
    ensures ParseSpec(Bytes(data), decode, parse) == ParseSpec(Str(text), decode, parse)
  {
  }

  /** Blank input yields no objects when the empty line does not parse. */
  lemma BlankInputYieldsNothing<J>(text: string, decode: seq<bv8> -> Option<string>, parse: string -> Option<J>)
    requires forall k :: 0 <= k < |text| ==> IsSpace(text[k])
    requires parse("").None?
    ensures ParseSpec(Str(text), decode, parse) == Some([])
  {
    assert LeadingSpaces(text) == |text|;
    assert Strip(text) == "";
    assert Lines(text) == [""];
    assert ParsedLines([""], parse) == [] + ParsedLines([""][1..], parse);
  }

  /** The results of an output file, if it decodes. */
  function Results(output: seq<bv8>, decode: seq<bv8> -> Option<string>, parse: string -> Option<ResultRecord>)
    : Option<seq<ResultRecord>>
  {
    ParseSpec(Bytes(output), decode, parse)
  }

  /**
   * `get_results`: one answer per parsed result, in the same order, each the
   * content at `response.body.choices[0].message.content`; any result
   * lacking it makes the call raise, and so does an undecodable file.
   */
  method GetResults(output: seq<bv8>, decode: seq<bv8> -> Option<string>, parse: string -> Option<ResultRecord>)
    returns (answers: Option<seq<string>>)
    ensures answers.Some? <==>
              Results(output, decode, parse).Some?
              && forall i :: 0 <= i < |Results(output, decode, parse).value| ==>
                   StrictContent(Results(output, decode, parse).value[i]).Some?
    ensures answers.Some? ==>
              |answers.value| == |Results(output, decode, parse).value|
              && forall i :: 0 <= i < |answers.value| ==>
                   answers.value[i] == StrictContent(Results(output, decode, parse).value[i]).value
  {
    var results := ParseJsonObjects(Bytes(output), decode, parse);
    if results.None? {
      return None;
    }
    var acc: seq<string> := [];
    for i := 0 to |results.value|
      invariant |acc| == i
      invariant forall k :: 0 <= k < i ==> StrictContent(results.value[k]).Some?
                                            && acc[k] == StrictContent(results.value[k]).value
    {
      var result := StrictContent(results.value[i]);
      if result.None? {
        return None;
      }
      acc := acc + [result.value];
    }
    answers := Some(acc);
  }
}
