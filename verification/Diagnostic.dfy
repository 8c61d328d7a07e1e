/**
  The bounded diagnostic of scripts/reviewed-docker-consumer-run.py: a byte-by-byte automaton
  that keeps at most one marker's length, against what it means for the whole log.
*/
module Diagnostic {
  import opened Wrappers
  import opened Bytes

  const NEWLINE: byte := 10
  const PREFIX: Bytes := Ascii("BOXFERRY_CUSTODY_FAILURE")

  const PREPARE_STAGES: seq<string> := [
    "prepared-ack", "outer-pull", "outer-volume-create", "outer-volume-path", "outer-data-prepare"]
  const OUTER_STAGES: seq<string> := [
    "apparmor-prepare", "apparmor-load", "outer-daemon-create", "outer-daemon-identity"]
  const READY_STAGES: seq<string> := [
    "daemon-socket-readiness", "legacy-ready", "http-helper-bind", "native-peer-bind", "apparmor-verify"]
  const INNER_STAGES: seq<string> := ["native-version", "native-info", "inner-volume-data", "inner-volume-media"]
  const VOLUME_STAGES: seq<string> := [
    "inner-volume-consume", "inner-volume-export", "inner-volume-pgdata", "inner-volume-redisdata"]
  const HELD_STAGES: seq<string> := ["paperless-hold", "paperless-check", "held-publication"]

  const STAGES: seq<string> := PREPARE_STAGES + OUTER_STAGES + READY_STAGES + INNER_STAGES + VOLUME_STAGES + HELD_STAGES

  function Marker(stage: string): Bytes {
    PREFIX + (Ascii(" last_entered_stage=") + Ascii(stage) + Ascii(" reason=rejected"))
  }

  function LongestMarker(stages: seq<string>): (n: nat)
    ensures forall s | s in stages :: |Marker(s)| <= n
  {
    if stages == [] then 0 else
      var n := LongestMarker(stages[1..]);
      if n < |Marker(stages[0])| then |Marker(stages[0])| else n
  }

  const MAX_LINE: nat := LongestMarker(STAGES)

  /** The dictionary from marker lines to stages. */
  function FindStage(stages: seq<string>, line: Bytes): (r: Option<string>)
    ensures r.Some? ==> r.value in stages && line == Marker(r.value)
    ensures r.None? ==> forall s | s in stages :: line != Marker(s)
  {
    if stages == [] then None
    else if Marker(stages[0]) == line then Some(stages[0])
    else FindStage(stages[1..], line)
  }

  function StageOf(line: Bytes): (r: Option<string>)
    ensures r.Some? ==> r.value in STAGES && line == Marker(r.value) && |line| <= MAX_LINE
    ensures r.None? ==> forall s | s in STAGES :: line != Marker(s)
  {
    FindStage(STAGES, line)
  }

  predicate OccursAt(p: Bytes, s: Bytes, i: int) {
    0 <= i <= |s| - |p| && s[i..i + |p|] == p
  }

  /** Python's `p in s` on byte strings. */
  predicate Occurs(p: Bytes, s: Bytes) {
    exists i :: 0 <= i <= |s| && OccursAt(p, s, i)
  }

  // ------------------------------------------------ the whole-log meaning

  /** A log cut at its newlines: the terminated lines, and what follows the last newline. */
  datatype Cut = Cut(lines: seq<Bytes>, tail: Bytes)

  function CutLines(log: Bytes): Cut {
    if log == [] then Cut([], [])
    else
      var c, b := CutLines(log[..|log| - 1]), log[|log| - 1];
      if b == NEWLINE then Cut(c.lines + [c.tail], []) else Cut(c.lines, c.tail + [b])
  }

  /** Lines, each closed by its newline. */
  function Terminated(lines: seq<Bytes>): Bytes {
    if lines == [] then [] else Terminated(lines[..|lines| - 1]) + lines[|lines| - 1] + [NEWLINE]
  }

  function Head(line: Bytes): Bytes {
    if |line| <= MAX_LINE then line else line[..MAX_LINE]
  }

  /** The prefix occurs within the part of the line that fits the bounded memory. */
  predicate Flagged(line: Bytes) {
    Occurs(PREFIX, Head(line))
  }

  function FlaggedLines(lines: seq<Bytes>): seq<Bytes> {
    if lines == [] then [] else
      FlaggedLines(lines[..|lines| - 1]) + if Flagged(lines[|lines| - 1]) then [lines[|lines| - 1]] else []
  }

  /** The stage a whole log names: closed by a newline, one flagged line, and that line a marker. */
  function Verdict(log: Bytes): Option<string> {
    var c := CutLines(log);
    var flagged := FlaggedLines(c.lines);
    if c.tail == [] && |flagged| == 1 then StageOf(flagged[0]) else None
  }

  ghost predicate NoNewline(line: Bytes) {
    forall i | 0 <= i < |line| :: line[i] != NEWLINE
  }

  /** The cut is a round trip: it loses nothing, and every piece is free of newlines. */
  lemma {:induction false} CutRoundTrip(log: Bytes)
    ensures log == Terminated(CutLines(log).lines) + CutLines(log).tail
    ensures NoNewline(CutLines(log).tail)
    ensures forall line | line in CutLines(log).lines :: NoNewline(line)
  {
    if log != [] {
      var init, b := log[..|log| - 1], log[|log| - 1];
      CutRoundTrip(init);
      var c := CutLines(init);
      if b == NEWLINE {
        assert CutLines(log).lines[..|c.lines|] == c.lines;
      }
    }
  }

  lemma CutByte(log: Bytes, b: byte)
    requires b != NEWLINE
    ensures CutLines(log + [b]) == Cut(CutLines(log).lines, CutLines(log).tail + [b])
  {
    assert (log + [b])[..|log|] == log;
  }

  lemma {:induction false} CutText(log: Bytes, text: Bytes)
    requires NoNewline(text)
    ensures CutLines(log + text) == Cut(CutLines(log).lines, CutLines(log).tail + text)
  {
    hide CutLines;
    if text == [] {
      assert log + text == log;
      assert CutLines(log).tail + text == CutLines(log).tail;
    } else {
      var init, last := text[..|text| - 1], text[|text| - 1];
      CutText(log, init);
      CutByte(log + init, last);
      assert log + text == (log + init) + [last];
      assert (CutLines(log).tail + init) + [last] == CutLines(log).tail + text;
    }
  }

  lemma CutNewline(log: Bytes)
    ensures CutLines(log + [NEWLINE]) == Cut(CutLines(log).lines + [CutLines(log).tail], [])
  {
    assert (log + [NEWLINE])[..|log|] == log;
  }

  lemma NothingCut()
    ensures CutLines([]) == Cut([], []) && Terminated([]) == []
  {}

  /** Nothing else cuts the same way: the cut of closed lines is those lines. */
  lemma {:induction false} CutTerminated(lines: seq<Bytes>)
    requires forall line | line in lines :: NoNewline(line)
    ensures CutLines(Terminated(lines)) == Cut(lines, [])
  {
    hide CutLines, NoNewline;
    if lines == [] {
      NothingCut();
    } else {
      var init, line := lines[..|lines| - 1], lines[|lines| - 1];
      CutTerminated(init);
      CutText(Terminated(init), line);
      CutNewline(Terminated(init) + line);
      assert [] + line == line;
      assert lines == init + [line];
    }
  }

  lemma {:induction false} FlaggedAppend(a: seq<Bytes>, b: seq<Bytes>)
    ensures FlaggedLines(a + b) == FlaggedLines(a) + FlaggedLines(b)
  {
    hide STAGES, PREFIX, MAX_LINE, Flagged;
    if b == [] {
      assert a + b == a;
    } else {
      assert (a + b)[..|a + b| - 1] == a + b[..|b| - 1];
      FlaggedAppend(a, b[..|b| - 1]);
    }
  }

  ghost predicate Quiet(lines: seq<Bytes>) {
    forall line | line in lines :: NoNewline(line) && !Flagged(line)
  }

  lemma {:induction false} QuietHasNoFlags(lines: seq<Bytes>)
    requires forall line | line in lines :: !Flagged(line)
    ensures FlaggedLines(lines) == []
  {
    hide STAGES, PREFIX, MAX_LINE, Flagged;
    if lines != [] { QuietHasNoFlags(lines[..|lines| - 1]); }
  }

  /** A single flagged line splits the lines into two quiet runs. */
  lemma {:induction false} OneFlag(lines: seq<Bytes>) returns (before: seq<Bytes>, after: seq<Bytes>)
    requires |FlaggedLines(lines)| == 1
    ensures lines == before + [FlaggedLines(lines)[0]] + after
    ensures forall line | line in before + after :: !Flagged(line)
  {
    hide STAGES, PREFIX, MAX_LINE, Flagged;
    var init, last := lines[..|lines| - 1], lines[|lines| - 1];
    if Flagged(last) {
      before, after := init, [];
      NoFlags(init);
    } else {
      before, after := OneFlag(init);
      after := after + [last];
    }
  }

  lemma {:induction false} NoFlags(lines: seq<Bytes>)
    requires FlaggedLines(lines) == []
    ensures forall line | line in lines :: !Flagged(line)
  {
    hide STAGES, PREFIX, MAX_LINE, Flagged;
    if lines != [] {
      NoFlags(lines[..|lines| - 1]);
      assert lines == lines[..|lines| - 1] + [lines[|lines| - 1]];
    }
  }

  // ------------------------------------------------ the markers

  /** ASCII without a newline. */
  predicate PlainText(s: string) {
    forall i | 0 <= i < |s| :: s[i] as int < 128 && s[i] as int != 10
  }

  lemma PrepareStagesPlain(s: string)
    requires s in PREPARE_STAGES
    ensures PlainText(s)
  {
    assert PlainText("prepared-ack") && PlainText("outer-pull");
    assert PlainText("outer-volume-create") && PlainText("outer-volume-path");
    assert PlainText("outer-data-prepare");
    hide PlainText;
  }

  lemma OuterStagesPlain(s: string)
    requires s in OUTER_STAGES
    ensures PlainText(s)
  {
    assert PlainText("apparmor-prepare") && PlainText("apparmor-load");
    assert PlainText("outer-daemon-create") && PlainText("outer-daemon-identity");
    hide PlainText;
  }

  lemma ReadyStagesPlain(s: string)
    requires s in READY_STAGES
    ensures PlainText(s)
  {
    assert PlainText("daemon-socket-readiness") && PlainText("legacy-ready");
    assert PlainText("http-helper-bind") && PlainText("native-peer-bind");
    assert PlainText("apparmor-verify");
    hide PlainText;
  }

  lemma InnerStagesPlain(s: string)
    requires s in INNER_STAGES
    ensures PlainText(s)
  {
    assert PlainText("native-version") && PlainText("native-info");
    assert PlainText("inner-volume-data") && PlainText("inner-volume-media");
    hide PlainText;
  }

  lemma VolumeStagesPlain(s: string)
    requires s in VOLUME_STAGES
    ensures PlainText(s)
  {
    assert PlainText("inner-volume-consume") && PlainText("inner-volume-export");
    assert PlainText("inner-volume-pgdata") && PlainText("inner-volume-redisdata");
    hide PlainText;
  }

  lemma HeldStagesPlain(s: string)
    requires s in HELD_STAGES
    ensures PlainText(s)
  {
    assert PlainText("paperless-hold") && PlainText("paperless-check");
    assert PlainText("held-publication");
    hide PlainText;
  }

  lemma StagesPlain(s: string)
    requires s in STAGES
    ensures PlainText(s)
  {
    hide PlainText, PREPARE_STAGES, OUTER_STAGES, READY_STAGES, INNER_STAGES, VOLUME_STAGES, HELD_STAGES;
    if s in PREPARE_STAGES {
      PrepareStagesPlain(s);
    } else if s in OUTER_STAGES {
      OuterStagesPlain(s);
    } else if s in READY_STAGES {
      ReadyStagesPlain(s);
    } else if s in INNER_STAGES {
      InnerStagesPlain(s);
    } else if s in VOLUME_STAGES {
      VolumeStagesPlain(s);
    } else {
      HeldStagesPlain(s);
    }
  }

  lemma PlainLine(s: string)
    requires PlainText(s)
    ensures NoNewline(Ascii(s))
  {}

  lemma AsciiInjective(s: string, t: string)
    requires PlainText(s) && PlainText(t) && Ascii(s) == Ascii(t)
    ensures s == t
  {
    forall i | 0 <= i < |s| ensures s[i] == t[i] {
      assert Ascii(s)[i] == s[i] as int && Ascii(t)[i] == t[i] as int;
      assert s[i] == s[i] as int as char && t[i] == t[i] as int as char;
    }
  }

  lemma SameMiddle(a: Bytes, x: Bytes, y: Bytes, b: Bytes)
    requires a + (x + b) == a + (y + b)
    ensures x == y
  {
    assert |x| == |y|;
    assert x == (a + (x + b))[|a|..|a| + |x|];
    assert y == (a + (y + b))[|a|..|a| + |y|];
  }

  lemma MarkerInjective(s: string, t: string)
    requires PlainText(s) && PlainText(t) && Marker(s) == Marker(t)
    ensures s == t
  {
    hide PlainText, Ascii, PREFIX;
    var key, end := Ascii(" last_entered_stage="), Ascii(" reason=rejected");
    assert Marker(s) == (PREFIX + key) + (Ascii(s) + end);
    assert Marker(t) == (PREFIX + key) + (Ascii(t) + end);
    SameMiddle(PREFIX + key, Ascii(s), Ascii(t), end);
    AsciiInjective(s, t);
  }

  lemma MarkerWordsPlain()
    ensures PlainText("BOXFERRY_CUSTODY_FAILURE") && PlainText(" last_entered_stage=") && PlainText(" reason=rejected")
  {}

  /** The dictionary has one entry a stage: the marker of a stage is a line, and it names that stage. */
  lemma MarkerNames(s: string)
    requires s in STAGES
    ensures NoNewline(Marker(s)) && StageOf(Marker(s)) == Some(s)
  {
    hide PlainText, Ascii, STAGES, NoNewline, FindStage;
    StagesPlain(s);
    MarkerWordsPlain();
    PlainLine("BOXFERRY_CUSTODY_FAILURE");
    PlainLine(" last_entered_stage=");
    PlainLine(" reason=rejected");
    PlainLine(s);
    NoNewlineJoins(Ascii(" last_entered_stage="), Ascii(s));
    NoNewlineJoins(Ascii(" last_entered_stage=") + Ascii(s), Ascii(" reason=rejected"));
    NoNewlineJoins(PREFIX, Ascii(" last_entered_stage=") + Ascii(s) + Ascii(" reason=rejected"));
    var found := StageOf(Marker(s));
    StagesPlain(found.value);
    MarkerInjective(s, found.value);
  }

  lemma NoNewlineJoins(a: Bytes, b: Bytes)
    requires NoNewline(a) && NoNewline(b)
    ensures NoNewline(a + b)
  {}

  lemma MarkerFlagged(stage: string)
    requires stage in STAGES
    ensures Flagged(Marker(stage))
  {
    hide LongestMarker, Ascii;
    var m := Marker(stage);
    assert |m| <= MAX_LINE by { MarkerFits(stage); }
    assert OccursAt(PREFIX, m, 0);
  }

  lemma MarkerFits(stage: string)
    requires stage in STAGES
    ensures |Marker(stage)| <= MAX_LINE
  {
    hide Marker;
  }

  /** A log that is some quiet lines, the marker of a stage, and more quiet lines, each closed by a newline. */
  ghost predicate NamesStage(log: Bytes, before: seq<Bytes>, s: string, after: seq<Bytes>) {
    && Quiet(before) && Quiet(after)
    && s in STAGES
    && log == Terminated(before + [Marker(s)] + after)
  }

  /** The independent reading of the verdict, in both directions. */
  lemma VerdictMeaning(log: Bytes, s: string)
    ensures (Verdict(log) == Some(s)) <==> exists before, after :: NamesStage(log, before, s, after)
  {
    if Verdict(log) == Some(s) {
      VerdictNames(log, s);
    }
    if before, after :| NamesStage(log, before, s, after) {
      NamedVerdict(log, before, s, after);
    }
  }

  lemma VerdictNames(log: Bytes, s: string)
    requires Verdict(log) == Some(s)
    ensures exists before, after :: NamesStage(log, before, s, after)
  {
    hide STAGES, PREFIX, MAX_LINE, Flagged, Marker;
    CutRoundTrip(log);
    var lines := CutLines(log).lines;
    var before, after := OneFlag(lines);
    assert log == Terminated(lines) + [] == Terminated(lines);
    assert FlaggedLines(lines)[0] in lines;
    assert NamesStage(log, before, s, after);
  }

  lemma OneLineFlagged(m: Bytes)
    requires Flagged(m)
    ensures FlaggedLines([m]) == [m]
  {
    hide STAGES, PREFIX, MAX_LINE, Flagged;
    var none: seq<Bytes> := [];
    assert [m][..0] == none;
    assert FlaggedLines(none) == none;
    assert none + [m] == [m];
  }

  lemma NamedVerdict(log: Bytes, before: seq<Bytes>, s: string, after: seq<Bytes>)
    requires NamesStage(log, before, s, after)
    ensures Verdict(log) == Some(s)
  {
    hide STAGES, PREFIX, MAX_LINE, Flagged, Marker, CutLines, FindStage;
    var m := Marker(s);
    MarkerFlagged(s);
    MarkerNames(s);
    CutTerminated(before + [m] + after);
    QuietHasNoFlags(before);
    QuietHasNoFlags(after);
    FlaggedAppend(before + [m], after);
    FlaggedAppend(before, [m]);
    OneLineFlagged(m);
  }

  /** Every stage can be named: a log that is just its marker has it as verdict. */
  lemma EveryStageNamed(s: string)
    requires s in STAGES
    ensures Verdict(Marker(s) + [NEWLINE]) == Some(s)
  {
    hide STAGES, PREFIX, MAX_LINE, Marker, Verdict;
    var none: seq<Bytes>, line := [], [Marker(s)];
    assert line[..0] == none && none + line + none == line;
    assert Terminated(line) == Terminated(none) + Marker(s) + [NEWLINE] == Marker(s) + [NEWLINE];
    assert NamesStage(Marker(s) + [NEWLINE], none, s, none);
    VerdictMeaning(Marker(s) + [NEWLINE], s);
  }

  // ------------------------------------------------ the automaton

  class MechanismFailureDiagnostic {
    var pending: Bytes
    var discard: bool
    var invalid: bool
    var stage: Option<string>
    ghost var fed: Bytes

    /** The bounded state is a summary of everything fed. */
    ghost predicate Valid()
      reads this
    {
      Summarises(fed, pending, discard, invalid, stage)
    }

    constructor ()
      ensures Valid() && fed == []
    {
      hide STAGES, PREFIX, MAX_LINE, StageOf;
      pending, discard, invalid, stage := [], false, false, None;
      fed := [];
    }

    method Feed(raw: Bytes)
      requires Valid()
      modifies this
      ensures Valid() && fed == old(fed) + raw
    {
      hide STAGES, PREFIX, MAX_LINE, StageOf, Summarises, Occurs;
      ghost var before := fed;
      var i := 0;
      while i < |raw|
        invariant 0 <= i <= |raw|
        invariant Valid() && fed == before + raw[..i]
      {
        var value := raw[i];
        StepKeepsSummary(fed, value, pending, discard, invalid, stage);
        if value == NEWLINE {
          if !discard && Occurs(PREFIX, pending) {
            var found := StageOf(pending);
            if found.None? || stage.Some? {
              invalid := true;
            } else {
              stage := found;
            }
          }
          pending := [];
          discard := false;
        } else if !discard {
          if |pending| == MAX_LINE {
            if Occurs(PREFIX, pending) {
              invalid := true;
            }
            pending := [];
            discard := true;
          } else {
            pending := pending + [value];
          }
        }
        fed := fed + [value];
        i := i + 1;
      }
      assert raw[..|raw|] == raw;
    }

    method LastEnteredStage() returns (r: Option<string>)
      requires Valid()
      ensures r == Verdict(fed)
    {
      SummaryVerdict(fed, pending, discard, invalid, stage);
      r := if invalid || pending != [] || discard then None else stage;
    }
  }

  ghost predicate Bad(flagged: seq<Bytes>) {
    |flagged| > 1 || (|flagged| == 1 && StageOf(flagged[0]).None?)
  }

  /** How the four fields relate to the whole log; they never hold more than one marker's length. */
  ghost predicate Summarises(log: Bytes, pending: Bytes, discard: bool, invalid: bool, stage: Option<string>) {
    var c := CutLines(log);
    var flagged := FlaggedLines(c.lines);
    && |pending| <= MAX_LINE
    && discard == (|c.tail| > MAX_LINE)
    && pending == (if discard then [] else c.tail)
    && invalid == (Bad(flagged) || (discard && Flagged(c.tail)))
    && (!invalid ==> stage == if flagged == [] then None else StageOf(flagged[0]))
    && (stage.Some? ==> flagged != [])
  }

  /** One byte of the automaton, as the loop body of `feed` runs it. */
  ghost function Step(value: byte, pending: Bytes, discard: bool, invalid: bool, stage: Option<string>)
    : (Bytes, bool, bool, Option<string>)
  {
    if value == NEWLINE then
      if !discard && Occurs(PREFIX, pending) then
        if StageOf(pending).None? || stage.Some? then ([], false, true, stage) else ([], false, invalid, StageOf(pending))
      else ([], false, invalid, stage)
    else if discard then (pending, discard, invalid, stage)
    else if |pending| == MAX_LINE then ([], true, invalid || Occurs(PREFIX, pending), stage)
    else (pending + [value], discard, invalid, stage)
  }

  lemma StepKeepsSummary(log: Bytes, value: byte, pending: Bytes, discard: bool, invalid: bool, stage: Option<string>)
    requires Summarises(log, pending, discard, invalid, stage)
    ensures var n := Step(value, pending, discard, invalid, stage);
            Summarises(log + [value], n.0, n.1, n.2, n.3)
  {
    hide STAGES, PREFIX, MAX_LINE, StageOf, Marker, Flagged, CutLines, FlaggedLines, Occurs;
    assert (log + [value])[..|log|] == log;
    if value == NEWLINE {
      LineCloses(log, pending, discard, invalid, stage);
    } else {
      TailGrows(log, value);
    }
  }

  lemma LineCloses(log: Bytes, pending: Bytes, discard: bool, invalid: bool, stage: Option<string>)
    requires Summarises(log, pending, discard, invalid, stage)
    ensures var n := Step(NEWLINE, pending, discard, invalid, stage);
            Summarises(log + [NEWLINE], n.0, n.1, n.2, n.3)
  {
    hide STAGES, PREFIX, MAX_LINE, StageOf, Marker, Occurs;
    var c := CutLines(log);
    assert (log + [NEWLINE])[..|log|] == log;
    assert (c.lines + [c.tail])[..|c.lines|] == c.lines;
    var flagged := FlaggedLines(c.lines);
    assert FlaggedLines(c.lines + [c.tail]) == flagged + if Flagged(c.tail) then [c.tail] else [];
    assert !discard ==> Head(c.tail) == pending == c.tail;
    assert discard ==> StageOf(c.tail).None?;
  }

  lemma TailGrows(log: Bytes, value: byte)
    requires value != NEWLINE
    ensures CutLines(log + [value]) == Cut(CutLines(log).lines, CutLines(log).tail + [value])
    ensures |CutLines(log).tail| > MAX_LINE ==> (Flagged(CutLines(log).tail + [value]) <==> Flagged(CutLines(log).tail))
    ensures |CutLines(log).tail| == MAX_LINE ==> (Flagged(CutLines(log).tail + [value]) <==> Occurs(PREFIX, CutLines(log).tail))
  {
    hide STAGES, PREFIX, MAX_LINE, Occurs;
    var tail := CutLines(log).tail;
    assert (log + [value])[..|log|] == log;
    if |tail| >= MAX_LINE {
      assert Head(tail + [value]) == tail[..MAX_LINE];
      assert |tail| == MAX_LINE ==> tail[..MAX_LINE] == tail;
    }
  }

  lemma SummaryVerdict(log: Bytes, pending: Bytes, discard: bool, invalid: bool, stage: Option<string>)
    requires Summarises(log, pending, discard, invalid, stage)
    ensures Verdict(log) == if invalid || pending != [] || discard then None else stage
  {
    hide STAGES, PREFIX, MAX_LINE, Flagged, Marker, FlaggedLines, CutLines, StageOf;
  }
}
