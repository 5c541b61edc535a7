/** The line decoder of src/parser.rs. A line `<data>[%<comment>]` becomes
    events, an optional comment and warnings, and decoding never fails.
    Each operation is an imperative method, as in the source, proved equal to a
    specification function (`SpecialSpec`, `Scan`, `LineSpec`) about which the
    lemmas in parser_props.dfy state the source's promises. */
module Parser {
  import opened Text

  /** A warning, kept abstract instead of the source's formatted message. */
  datatype Warning =
    | TooFewSpecialChars       // a special body shorter than 5 characters
    | InvalidTeam(team: char)  // a team code the decoder does not accept

  datatype NormalEvent = NormalEvent(
    team: char, player: string, skill: char, eval: char,
    startZone: char, startSubzone: char, endZone: char, endSubzone: char,
    modifier: Option<string>)

  datatype SpecialEvent = SpecialEvent(
    team: char, player: string, skill: char, eval: char, modifier: Option<string>)

  datatype Event = Normal(normal: NormalEvent) | Special(special: SpecialEvent)

  datatype ParsedAction = ParsedAction(
    events: seq<Event>, comment: Option<string>, warnings: seq<Warning>)

  datatype Result<+T, +E> = Ok(value: T) | Err(error: E)

  /** The result of the normal-event scanner: events and warnings. */
  datatype NormalScan = NormalScan(events: seq<NormalEvent>, warnings: seq<Warning>)

  const CommentSeparator: char := '%'
  const SpecialMarker: char := '!'
  /** Width of a normal record: team, two player digits, skill, eval and four zone fields. */
  const RecordWidth: nat := 9
  /** The shortest special body: team, two player digits, skill, eval. */
  const SpecialMinWidth: nat := 5

  /** Team codes the decoder itself accepts (it never calls the validators). */
  predicate IsNormalTeam(c: char) { c == 'L' || c == 'D' }
  predicate IsSpecialTeam(c: char) { c == 'L' || c == 'D' || c == 'R' }

  function TeamWarning(team: char, accepted: bool): seq<Warning> {
    if accepted then [] else [InvalidTeam(team)]
  }

  function AsEvents(es: seq<NormalEvent>): (r: seq<Event>)
    ensures |r| == |es| && forall k :: 0 <= k < |es| ==> r[k] == Normal(es[k])
  {
    seq(|es|, k requires 0 <= k < |es| => Normal(es[k]))
  }

  // ---------------------------------------------------------------- special

  /** What `parse_special_event` returns for the text after `!`. */
  function SpecialSpec(input: string): Result<(SpecialEvent, seq<Warning>), seq<Warning>> {
    if |input| < SpecialMinWidth then Err([TooFewSpecialChars])
    else
      var modifier := if |input| > SpecialMinWidth then Some([input[5]]) else None;
      Ok((SpecialEvent(input[0], input[1..3], input[3], input[4], modifier),
          TeamWarning(input[0], IsSpecialTeam(input[0]))))
  }

  method ParseSpecialEvent(input: string) returns (r: Result<(SpecialEvent, seq<Warning>), seq<Warning>>)
    requires IsAscii(input)
    ensures r == SpecialSpec(input)
    ensures r.Err? <==> |input| < SpecialMinWidth
    ensures r.Err? ==> r.error == [TooFewSpecialChars]
  {
    var warnings: seq<Warning> := [];
    var chars := input;
    if |chars| < 5 {
      warnings := warnings + [TooFewSpecialChars];
      assert warnings == [TooFewSpecialChars];
      return Err(warnings);
    }
    var team := chars[0];
    assert team in ['L', 'D', 'R'] <==> IsSpecialTeam(team);
    if !(team in ['L', 'D', 'R']) {
      warnings := warnings + [InvalidTeam(team)];
    }
    var player := input[1..3];
    var skill := chars[3];
    var eval := chars[4];
    var modifier: Option<string> := if |chars| > 5 then Some([chars[5]]) else None;
    assert warnings == TeamWarning(team, IsSpecialTeam(team));
    r := Ok((SpecialEvent(team, player, skill, eval, modifier), warnings));
  }

  // ----------------------------------------------------------------- normal

  /** Where the modifier after a record ending at `j` stops: nothing when the
      text ends or a team code follows, else two characters, or one at the end. */
  function ModifierEnd(input: string, j: nat): (m: nat)
    requires j <= |input|
    ensures j <= m <= |input| && m <= j + 2
  {
    if j < |input| && !IsNormalTeam(input[j]) then (if j + 1 < |input| then j + 2 else j + 1)
    else j
  }

  /** The record starting at `i`, with the modifier `input[i + 9..m]` if that is not empty. */
  function RecordAt(input: string, i: nat, m: nat): NormalEvent
    requires i + RecordWidth <= m <= |input|
  {
    NormalEvent(input[i], input[i + 1..i + 3], input[i + 3], input[i + 4],
                input[i + 5], input[i + 6], input[i + 7], input[i + 8],
                if m == i + RecordWidth then None else Some(input[i + RecordWidth..m]))
  }

  /** What `parse_normal_events` returns for `input[i..]`: one 9-character
      record after another, each with its modifier, until fewer than 9 remain. */
  function Scan(input: string, i: nat): NormalScan
    requires i <= |input|
    decreases |input| - i
  {
    if i + RecordWidth > |input| then NormalScan([], [])
    else
      var m := ModifierEnd(input, i + RecordWidth);
      var rest := Scan(input, m);
      NormalScan([RecordAt(input, i, m)] + rest.events,
                 TeamWarning(input[i], IsNormalTeam(input[i])) + rest.warnings)
  }

  /** One round of the scanner, seen from the results gathered so far. */
  lemma ScanStep(input: string, i: nat, es: seq<NormalEvent>, ws: seq<Warning>)
    requires i + RecordWidth <= |input|
    ensures var m := ModifierEnd(input, i + RecordWidth);
      es + Scan(input, i).events == (es + [RecordAt(input, i, m)]) + Scan(input, m).events &&
      ws + Scan(input, i).warnings ==
        (ws + TeamWarning(input[i], IsNormalTeam(input[i]))) + Scan(input, m).warnings
  {
  }

  method ParseNormalEvents(input: string) returns (events: seq<NormalEvent>, warnings: seq<Warning>)
    requires IsAscii(input)
    ensures NormalScan(events, warnings) == Scan(input, 0)
  {
    events := [];
    warnings := [];
    var index: nat := 0;
    var size := |input|;
    while index + 9 <= size
      invariant index <= size
      invariant Scan(input, 0) ==
        NormalScan(events + Scan(input, index).events, warnings + Scan(input, index).warnings)
      decreases size - index
    {
      ghost var start, events0, warnings0 := index, events, warnings;
      var chunk := input[index..index + 9];
      var team := chunk[0];
      assert team in ['L', 'D'] <==> IsNormalTeam(team);
      if !(team in ['L', 'D']) {
        warnings := warnings + [InvalidTeam(team)];
      }
      var player := chunk[1..3];
      assert player == input[start + 1..start + 3] by {
        assert forall k :: 0 <= k < 2 ==> player[k] == input[start + 1 + k];
      }
      var skill := chunk[3];
      var eval := chunk[4];
      var startZone := chunk[5];
      var startSubzone := chunk[6];
      var endZone := chunk[7];
      var endSubzone := chunk[8];

      var modifier: Option<string> := None;

      index := index + 9;

      if index < size {
        var nextChar := input[index];
        assert nextChar in ['L', 'D'] <==> IsNormalTeam(nextChar);
        if !(nextChar in ['L', 'D']) {
          var modEnd := if index + 1 < size then index + 2 else index + 1;
          modifier := Some(input[index..modEnd]);
          index := modEnd;
        }
      }

      var event := NormalEvent(team, player, skill, eval,
                               startZone, startSubzone, endZone, endSubzone, modifier);
      assert index == ModifierEnd(input, start + RecordWidth);
      assert event == RecordAt(input, start, index);
      assert warnings == warnings0 + TeamWarning(input[start], IsNormalTeam(input[start]));
      ScanStep(input, start, events0, warnings0);
      events := events + [event];
    }
  }

  // ------------------------------------------------------------------- line

  /** The data segment: the text before the first `%`, trimmed. */
  function DataPart(line: string): string {
    Trim(SplitOnce(line, CommentSeparator).0)
  }

  /** The comment: the text after the first `%`, trimmed, if there is a `%`. */
  function CommentPart(line: string): Option<string> {
    var after := SplitOnce(line, CommentSeparator).1;
    if after.Some? then Some(Trim(after.value)) else None
  }

  predicate IsSpecialData(data: string) {
    |data| > 0 && data[0] == SpecialMarker
  }

  /** The data segment of ASCII text, and the body after its first character, are ASCII. */
  lemma TrimmedDataIsAscii(line: string, data: string)
    requires IsAscii(line) && data == DataPart(line)
    ensures IsAscii(data) && (|data| > 0 ==> IsAscii(data[1..]))
  {
    var before := SplitOnce(line, CommentSeparator).0;
    assert before == line[..|before|];
    AsciiSlice(line, 0, |before|);
    var t := TrimStart(before);
    AsciiSlice(before, |before| - |t|, |before|);
    AsciiSlice(t, 0, |data|);
    if |data| > 0 {
      AsciiSlice(data, 1, |data|);
    }
  }

  /** The events and warnings `parse_line` gathers from a data segment:
      a special body after `!`, or else normal records. */
  function DecodeData(data: string): (seq<Event>, seq<Warning>) {
    if IsSpecialData(data) then
      match SpecialSpec(data[1..])
      case Ok((event, ws)) => ([Special(event)], ws)
      case Err(ws) => ([], ws)
    else
      var scan := Scan(data, 0);
      (AsEvents(scan.events), scan.warnings)
  }

  /** What `parse_line` returns. */
  function LineSpec(line: string): ParsedAction {
    var decoded := DecodeData(DataPart(line));
    ParsedAction(decoded.0, CommentPart(line), decoded.1)
  }

  method ParseLine(line: string) returns (p: ParsedAction)
    requires IsAscii(line)
    ensures p == LineSpec(line)
  {
    var warnings: seq<Warning> := [];
    var events: seq<Event> := [];
    var comment: Option<string> := None;

    var parts := SplitOnce(line, CommentSeparator);
    var dataPart := Trim(parts.0);
    if parts.1.Some? {
      comment := Some(Trim(parts.1.value));
    }
    assert dataPart == DataPart(line) && comment == CommentPart(line);

    TrimmedDataIsAscii(line, dataPart);
    if |dataPart| > 0 && dataPart[0] == SpecialMarker {
      var r := ParseSpecialEvent(dataPart[1..]);
      assert IsSpecialData(dataPart) && r == SpecialSpec(dataPart[1..]);
      if r.Ok? {
        var event := r.value.0;
        events := events + [Special(event)];
        warnings := warnings + r.value.1;
        assert events == [Special(event)] && warnings == r.value.1;
      } else {
        warnings := warnings + r.error;
        assert events == [] && warnings == r.error;
      }
    } else {
      var normalEvents, normWarnings := ParseNormalEvents(dataPart);
      events := events + AsEvents(normalEvents);
      warnings := warnings + normWarnings;
      assert events == AsEvents(normalEvents) && warnings == normWarnings;
      assert !IsSpecialData(dataPart);
    }
    assert (events, warnings) == DecodeData(dataPart);

    p := ParsedAction(events, comment, warnings);
  }
}
