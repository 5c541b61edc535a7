/** What the line decoder of src/parser.rs promises, proved about the
    specification functions that its methods are proved equal to. */
module ParserProperties {
  import opened Text
  import opened Parser
  import Validation

  // ------------------------------------------------------------ rendering

  function ModifierText(m: Option<string>): string {
    if m.Some? then m.value else []
  }

  /** A normal event written back as text: its nine record characters, then its modifier. */
  function Render(e: NormalEvent): string {
    [e.team] + e.player + [e.skill, e.eval, e.startZone, e.startSubzone, e.endZone, e.endSubzone]
      + ModifierText(e.modifier)
  }

  /** Events written back one after another, in order. */
  function RenderAll(es: seq<NormalEvent>): string {
    if es == [] then [] else Render(es[0]) + RenderAll(es[1..])
  }

  /** A modifier read after a record ending at `j` is as long as the decoder
      allows: absent exactly when the text ends there or a team code `L`/`D`
      follows, otherwise two characters, or one when only one is left. */
  predicate ModifierMaximal(input: string, j: nat, m: Option<string>) {
    j <= |input| &&
    (m.None? <==> j == |input| || IsNormalTeam(input[j])) &&
    (m.Some? ==> |m.value| == if j + 1 < |input| then 2 else 1)
  }

  /** `es` is a decoding of `input[i..]`: each event, written back, is the
      text at its position, with a two-character player field and a maximal
      modifier, and fewer than 9 characters are left after the last one. */
  predicate Decodes(input: string, i: nat, es: seq<NormalEvent>)
    decreases |es|
  {
    i <= |input| &&
    if es == [] then |input| - i < RecordWidth
    else
      var e := es[0];
      var n := |Render(e)|;
      |e.player| == 2 && i + n <= |input| && input[i..i + n] == Render(e) &&
      ModifierMaximal(input, i + RecordWidth, e.modifier) &&
      Decodes(input, i + n, es[1..])
  }

  /** One warning per record whose team code is not `L` or `D`, in record order. */
  function TeamWarnings(es: seq<NormalEvent>): seq<Warning> {
    if es == [] then [] else TeamWarning(es[0].team, IsNormalTeam(es[0].team)) + TeamWarnings(es[1..])
  }

  // ------------------------------------------------------ the normal scan

  lemma RecordRenders(input: string, i: nat)
    requires i + RecordWidth <= |input|
    ensures var m := ModifierEnd(input, i + RecordWidth);
      Render(RecordAt(input, i, m)) == input[i..m]
  {
    var m := ModifierEnd(input, i + RecordWidth);
    var r := Render(RecordAt(input, i, m));
    assert |r| == m - i;
    forall k | 0 <= k < |r| ensures r[k] == input[i + k] {
    }
  }

  lemma SliceSplit(s: string, a: nat, b: nat, c: nat)
    requires a <= b <= c <= |s|
    ensures s[a..c] == s[a..b] + s[b..c]
  {
  }

  lemma RenderAllCons(e: NormalEvent, es: seq<NormalEvent>)
    ensures RenderAll([e] + es) == Render(e) + RenderAll(es)
  {
    assert ([e] + es)[1..] == es;
  }

  /** Written back, the scanner's events are the text from `i` on, in order,
      except for a tail of fewer than 9 characters. */
  lemma {:induction false} ScanRendersPrefix(input: string, i: nat)
    requires i <= |input|
    ensures var r := RenderAll(Scan(input, i).events);
      i + |r| <= |input| && input[i..i + |r|] == r && |input| - (i + |r|) < RecordWidth
    decreases |input| - i
  {
    if i + RecordWidth <= |input| {
      var m := ModifierEnd(input, i + RecordWidth);
      var e := RecordAt(input, i, m);
      var rest := Scan(input, m).events;
      ScanRendersPrefix(input, m);
      RecordRenders(input, i);
      RenderAllCons(e, rest);
      var r := RenderAll(rest);
      SliceSplit(input, i, m, m + |r|);
    }
  }

  /** The scanner decodes: the events it returns are a decoding of the text. */
  lemma {:induction false} ScanDecodes(input: string, i: nat)
    requires i <= |input|
    ensures Decodes(input, i, Scan(input, i).events)
    decreases |input| - i
  {
    if i + RecordWidth <= |input| {
      var m := ModifierEnd(input, i + RecordWidth);
      var e := RecordAt(input, i, m);
      var rest := Scan(input, m).events;
      ScanDecodes(input, m);
      RecordRenders(input, i);
      assert ([e] + rest)[0] == e && ([e] + rest)[1..] == rest;
    }
  }

  lemma FieldsOfRender(e: NormalEvent)
    requires |e.player| == 2
    ensures var r := Render(e);
      r[0] == e.team && r[3] == e.skill && r[4] == e.eval && r[5] == e.startZone &&
      r[6] == e.startSubzone && r[7] == e.endZone && r[8] == e.endSubzone
  {
  }

  lemma RenderLength(e: NormalEvent)
    ensures |Render(e)| == RecordWidth - 2 + |e.player| + |ModifierText(e.modifier)|
  {
  }

  /** The first event of a decoding is the record the scanner reads at `i`. */
  lemma DecodesHead(input: string, i: nat, es: seq<NormalEvent>)
    requires i <= |input| && Decodes(input, i, es) && es != []
    ensures i + RecordWidth <= |input|
    ensures ModifierEnd(input, i + RecordWidth) == i + |Render(es[0])|
    ensures es[0] == RecordAt(input, i, i + |Render(es[0])|)
  {
    var e := es[0];
    var m := i + |Render(e)|;
    RenderLength(e);
    assert ModifierEnd(input, i + RecordWidth) == m;
    var rec := RecordAt(input, i, m);
    RecordRenders(input, i);
    assert Render(e) == Render(rec);
    assert e.player == Render(e)[1..3] && rec.player == Render(rec)[1..3];
    assert ModifierText(e.modifier) == Render(e)[RecordWidth..];
    assert ModifierText(rec.modifier) == Render(rec)[RecordWidth..];
    FieldsOfRender(e);
    FieldsOfRender(rec);
  }

  /** Decodings are unique, so the scanner's result is the only decoding of the text. */
  lemma {:induction false} DecodesUnique(input: string, i: nat, es: seq<NormalEvent>)
    requires i <= |input| && Decodes(input, i, es)
    ensures es == Scan(input, i).events
    decreases |es|
  {
    if es != [] {
      DecodesHead(input, i, es);
      DecodesUnique(input, i + |Render(es[0])|, es[1..]);
      assert es == [es[0]] + es[1..];
    }
  }

  /** The scanner warns once per record whose team code is not `L` or `D`, in order. */
  lemma {:induction false} ScanWarnings(input: string, i: nat)
    requires i <= |input|
    ensures Scan(input, i).warnings == TeamWarnings(Scan(input, i).events)
    decreases |input| - i
  {
    if i + RecordWidth <= |input| {
      var m := ModifierEnd(input, i + RecordWidth);
      ScanWarnings(input, m);
      var es := Scan(input, i).events;
      assert es[0] == RecordAt(input, i, m) && es[1..] == Scan(input, m).events;
    }
  }

  /** Every round consumes 9 to 11 characters, so the number of events is bounded both ways. */
  lemma {:induction false} ScanCount(input: string, i: nat)
    requires i <= |input|
    ensures RecordWidth * |Scan(input, i).events| <= |input| - i
    ensures |input| - i < (RecordWidth + 2) * |Scan(input, i).events| + RecordWidth
    decreases |input| - i
  {
    if i + RecordWidth <= |input| {
      ScanCount(input, ModifierEnd(input, i + RecordWidth));
    }
  }

  /** There are never more warnings than records. */
  lemma {:induction false} TeamWarningsBounded(es: seq<NormalEvent>)
    ensures |TeamWarnings(es)| <= |es|
    ensures forall w :: w in TeamWarnings(es) ==> w.InvalidTeam? && !IsNormalTeam(w.team)
  {
    if es != [] {
      TeamWarningsBounded(es[1..]);
    }
  }

  // --------------------------------------------------------- the special body

  function RenderSpecial(e: SpecialEvent): string {
    [e.team] + e.player + [e.skill, e.eval] + ModifierText(e.modifier)
  }

  /** A special body of at least 5 characters always gives one event; written
      back, it is the first six characters of the body (the rest is dropped),
      and the only warning is for a team code outside `L`, `D`, `R`. */
  lemma SpecialKeepsSixChars(body: string)
    requires |body| >= SpecialMinWidth
    ensures SpecialSpec(body).Ok?
    ensures RenderSpecial(SpecialSpec(body).value.0) == body[..if |body| > 6 then 6 else |body|]
    ensures SpecialSpec(body).value.0.team == body[0]
    ensures SpecialSpec(body).value.1 == if IsSpecialTeam(body[0]) then [] else [InvalidTeam(body[0])]
  {
    var n := if |body| > 6 then 6 else |body|;
    var r := RenderSpecial(SpecialSpec(body).value.0);
    assert |r| == n;
    forall k | 0 <= k < n ensures r[k] == body[k] {
    }
  }

  // ---------------------------------------------------------------- lines

  /** The comment is the trimmed text after the first `%`, and the data is the
      trimmed text before it. */
  lemma CommentAfterFirstPercent(line: string, before: string, after: string)
    requires line == before + [CommentSeparator] + after && CommentSeparator !in before
    ensures LineSpec(line).comment == Some(Trim(after))
    ensures DataPart(line) == Trim(before)
    ensures AllWhitespace(after) ==> LineSpec(line).comment == Some([])
  {
    SplitOnceAtFirst(line, CommentSeparator, before, after);
  }

  /** Without a `%` there is no comment and the whole line is data. */
  lemma NoCommentWithoutPercent(line: string)
    requires CommentSeparator !in line
    ensures LineSpec(line).comment == None
    ensures DataPart(line) == Trim(line)
  {
    SplitOnceWithoutSeparator(line, CommentSeparator);
  }

  /** There is a comment exactly when the line holds a `%`. */
  lemma CommentIffPercent(line: string)
    ensures LineSpec(line).comment.Some? <==> CommentSeparator in line
  {
  }

  /** The events and warnings depend on the text before the first `%` only. */
  lemma CommentDoesNotAffectEvents(before: string, after1: string, after2: string)
    requires CommentSeparator !in before
    ensures var p1 := LineSpec(before + [CommentSeparator] + after1);
            var p2 := LineSpec(before + [CommentSeparator] + after2);
            p1.events == p2.events && p1.warnings == p2.warnings
  {
    SplitOnceAtFirst(before + [CommentSeparator] + after1, CommentSeparator, before, after1);
    SplitOnceAtFirst(before + [CommentSeparator] + after2, CommentSeparator, before, after2);
  }

  /** A line never mixes kinds: data starting with `!` gives at most one
      event, a special one; any other data gives normal events only. */
  lemma NoMixedKinds(line: string)
    ensures var p := LineSpec(line);
      if IsSpecialData(DataPart(line)) then |p.events| <= 1 && forall e :: e in p.events ==> e.Special?
      else forall e :: e in p.events ==> e.Normal?
  {
  }

  /** A special body shorter than 5 characters gives no event and exactly one warning. */
  lemma ShortSpecialBody(line: string)
    requires IsSpecialData(DataPart(line)) && |DataPart(line)| < 1 + SpecialMinWidth
    ensures LineSpec(line).events == []
    ensures LineSpec(line).warnings == [TooFewSpecialChars]
  {
  }

  /** A special body of 5 or more characters gives exactly one event whose
      fields are read at fixed positions, with at most one warning, issued
      exactly when the team code is not `L`, `D` or `R`. */
  lemma SpecialLine(line: string)
    requires IsSpecialData(DataPart(line)) && |DataPart(line)| >= 1 + SpecialMinWidth
    ensures var d := DataPart(line);
      var p := LineSpec(line);
      p.events == [Special(SpecialEvent(d[1], d[2..4], d[4], d[5],
                                        if |d| > 6 then Some([d[6]]) else None))] &&
      |p.warnings| <= 1 &&
      (p.warnings == [] <==> IsSpecialTeam(d[1]))
  {
    var d := DataPart(line);
    assert d[1..][1..3] == d[2..4];
  }

  /** Data not starting with `!` decodes into the unique decoding of the data
      segment, with one warning per record whose team code is not `L` or `D`. */
  lemma NormalLine(line: string)
    requires !IsSpecialData(DataPart(line))
    ensures var p := LineSpec(line);
      exists es :: p.events == AsEvents(es) && Decodes(DataPart(line), 0, es) &&
                   p.warnings == TeamWarnings(es)
  {
    var es := Scan(DataPart(line), 0).events;
    ScanDecodes(DataPart(line), 0);
    ScanWarnings(DataPart(line), 0);
  }

  /** The decoder checks teams against `L`/`D` while the validators accept
      `L`/`O`: `D` passes one and fails the other, and so does `O`. */
  lemma TeamChecksDisagree(tr: string -> string)
    ensures IsNormalTeam('D') && Validation.ValidateTeam('D', false, tr).Some?
    ensures !IsNormalTeam('O') && Validation.ValidateTeam('O', false, tr).None?
  {
  }

  // ------------------------------------------------------------- examples
  // The examples are stated for data segments: by `PlainLine`, a line with no
  // `%` and no whitespace at either end decodes exactly as its own data.

  /** A line with no `%` and no whitespace at either end is its own data segment. */
  lemma PlainLine(line: string)
    requires CommentSeparator !in line
    requires line != [] && !IsWhitespace(line[0]) && !IsWhitespace(line[|line| - 1])
    ensures LineSpec(line) == ParsedAction(DecodeData(line).0, None, DecodeData(line).1)
  {
    NoCommentWithoutPercent(line);
    TrimKeepsUntrimmed(line);
  }

  /** Two back-to-back records: two events and no warnings. */
  lemma ExampleTwoRecords()
    ensures var d := DecodeData("L07S+1A5BD02R+5B3C"); |d.0| == 2 && d.1 == []
  {
    var data := "L07S+1A5BD02R+5B3C";
    assert ModifierEnd(data, 9) == 9;
    assert ModifierEnd(data, 18) == 18;
    assert Scan(data, 18) == NormalScan([], []);
  }

  /** `!D00H+`: one special event D / "00" / H / +, no modifier, no warning. */
  lemma ExampleSpecial()
    ensures DecodeData("!D00H+") == ([Special(SpecialEvent('D', "00", 'H', '+', None))], [])
  {
    var body := "!D00H+"[1..];
    assert body[1..3] == "00" by {
      assert |body[1..3]| == 2 && body[1..3][0] == '0' && body[1..3][1] == '0';
    }
    assert SpecialSpec(body) == Ok((SpecialEvent('D', "00", 'H', '+', None), []));
  }

  /** A special modifier is one character: of `ab` only `a` is kept. */
  lemma ExampleSpecialModifier()
    ensures DecodeData("!R12T=ab") == ([Special(SpecialEvent('R', "12", 'T', '=', Some("a")))], [])
  {
    var body := "!R12T=ab"[1..];
    assert body[1..3] == "12" by {
      assert |body[1..3]| == 2 && body[1..3][0] == '1' && body[1..3][1] == '2';
    }
    assert [body[5]] == "a";
    assert SpecialSpec(body) == Ok((SpecialEvent('R', "12", 'T', '=', Some("a")), []));
  }

  /** `!D0`: too short for a special event, so no event and one warning. */
  lemma ExampleShortSpecial()
    ensures DecodeData("!D0") == ([], [TooFewSpecialChars])
  {
  }

  /** There is no resynchronisation: a stray leading `X` is read as the team
      of a record, which then ends one character early, and the last
      character becomes its modifier. */
  lemma ExampleNoResynchronisation()
    ensures DecodeData("XL07S+1A5B") ==
      ([Normal(NormalEvent('X', "L0", '7', 'S', '+', '1', 'A', '5', Some("B")))], [InvalidTeam('X')])
  {
    var data := "XL07S+1A5B";
    assert ModifierEnd(data, 9) == 10;
    assert Scan(data, 10) == NormalScan([], []);
    assert data[1..3] == "L0" by {
      assert |data[1..3]| == 2 && data[1..3][0] == 'L' && data[1..3][1] == '0';
    }
    assert data[9..10] == "B" by {
      assert |data[9..10]| == 1 && data[9..10][0] == 'B';
    }
    var e := NormalEvent('X', "L0", '7', 'S', '+', '1', 'A', '5', Some("B"));
    assert RecordAt(data, 0, 10) == e;
    assert Scan(data, 0) == NormalScan([e], [InvalidTeam('X')]);
    assert AsEvents([e]) == [Normal(e)];
  }

  /** A normal modifier is at most two characters: of `XYZ` after a record,
      `XY` is kept and `Z`, too short for a record, is dropped without a warning. */
  lemma ExampleModifierCapped()
    ensures DecodeData("L07S+1A5BXYZ") ==
      ([Normal(NormalEvent('L', "07", 'S', '+', '1', 'A', '5', 'B', Some("XY")))], [])
  {
    var data := "L07S+1A5BXYZ";
    assert ModifierEnd(data, 9) == 11;
    assert Scan(data, 11) == NormalScan([], []);
    assert data[1..3] == "07" by {
      assert |data[1..3]| == 2 && data[1..3][0] == '0' && data[1..3][1] == '7';
    }
    assert data[9..11] == "XY" by {
      assert |data[9..11]| == 2 && data[9..11][0] == 'X' && data[9..11][1] == 'Y';
    }
    var e := NormalEvent('L', "07", 'S', '+', '1', 'A', '5', 'B', Some("XY"));
    assert RecordAt(data, 0, 11) == e;
    assert Scan(data, 0) == NormalScan([e], []);
    assert AsEvents([e]) == [Normal(e)];
  }

  /** The second modifier character is taken even when it is a team code:
      `x` then `L` form the modifier `xL`, and the following record, now
      one character short, is lost without a warning. */
  lemma ExampleModifierSwallowsTeam()
    ensures DecodeData("L07S+1A5BxL07S+1A5B") ==
      ([Normal(NormalEvent('L', "07", 'S', '+', '1', 'A', '5', 'B', Some("xL")))], [])
  {
    var data := "L07S+1A5BxL07S+1A5B";
    assert ModifierEnd(data, 9) == 11;
    assert Scan(data, 11) == NormalScan([], []);
    assert data[1..3] == "07" by {
      assert |data[1..3]| == 2 && data[1..3][0] == '0' && data[1..3][1] == '7';
    }
    assert data[9..11] == "xL" by {
      assert |data[9..11]| == 2 && data[9..11][0] == 'x' && data[9..11][1] == 'L';
    }
    var e := NormalEvent('L', "07", 'S', '+', '1', 'A', '5', 'B', Some("xL"));
    assert RecordAt(data, 0, 11) == e;
    assert Scan(data, 0) == NormalScan([e], []);
    assert AsEvents([e]) == [Normal(e)];
  }
}
