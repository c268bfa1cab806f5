/** The messages of a chat as the Anthropic adapter sends them (app/llm_config.py:257-289). */
module Messages {
  import opened Common

  // A message as the caller gives it; a missing role counts as user and a missing content as empty.
  datatype Message = Message(role: Option<string>, content: Option<string>)

  datatype Role = User | Assistant

  datatype Turn = Turn(role: Role, content: string)

  const SEPARATOR := "\n\n"
  const OPENER := Turn(User, "Please proceed.")

  predicate Blank(c: char) {
    IsSpace(c as int)
  }

  function RoleOf(m: Message): string {
    if m.role.Some? then m.role.value else "user"
  }

  function ContentOf(m: Message): string {
    if m.content.Some? then m.content.value else ""
  }

  // The user and assistant messages; every other role but system is dropped.
  function Turns(messages: seq<Message>): seq<Turn> {
    if messages == [] then [] else
    var n := |messages| - 1;
    var role, content := RoleOf(messages[n]), ContentOf(messages[n]);
    Turns(messages[..n]) +
    if role == "user" then [Turn(User, content)] else if role == "assistant" then [Turn(Assistant, content)] else []
  }

  function SystemText(messages: seq<Message>): string {
    if messages == [] then "" else
    var n := |messages| - 1;
    SystemText(messages[..n]) + if RoleOf(messages[n]) == "system" then ContentOf(messages[n]) + SEPARATOR else ""
  }

  // ---------------------------------------------------------------- what is taken from the messages

  // A list of messages gives the turns of its parts one after the other.
  lemma {:induction false} TurnsConcat(a: seq<Message>, b: seq<Message>)
    ensures Turns(a + b) == Turns(a) + Turns(b)
    decreases |b|
  {
    if b == [] {
      assert a + b == a;
    } else {
      var n := |b| - 1;
      assert (a + b)[..|a + b| - 1] == a + b[..n];
      TurnsConcat(a, b[..n]);
    }
  }

  // And one message gives its content under its role, if that is user, assistant or missing.
  lemma TurnsOfOne(m: Message)
    ensures Turns([m]) ==
              var content := if m.content.Some? then m.content.value else "";
              if m.role == None || m.role == Some("user") then [Turn(User, content)]
              else if m.role == Some("assistant") then [Turn(Assistant, content)] else []
  {
    assert [m][..0] == [];
  }

  // The contents of the system messages, in order.
  function SystemContents(messages: seq<Message>): seq<string> {
    if messages == [] then [] else
    var n := |messages| - 1;
    SystemContents(messages[..n]) + if RoleOf(messages[n]) == "system" then [ContentOf(messages[n])] else []
  }

  lemma {:induction false} SystemContentsConcat(a: seq<Message>, b: seq<Message>)
    ensures SystemContents(a + b) == SystemContents(a) + SystemContents(b)
    decreases |b|
  {
    if b == [] {
      assert a + b == a;
    } else {
      var n := |b| - 1;
      assert (a + b)[..|a + b| - 1] == a + b[..n];
      SystemContentsConcat(a, b[..n]);
    }
  }

  lemma SystemContentsOfOne(m: Message)
    ensures SystemContents([m]) ==
              if m.role == Some("system") then [if m.content.Some? then m.content.value else ""] else []
  {
    assert [m][..0] == [];
  }

  // ---------------------------------------------------------------- maximal runs

  // Neighbouring turns of one role.
  datatype Run = Run(role: Role, contents: seq<string>)

  // One more turn: it goes to the last run if that has the same role, and otherwise starts a new one.
  function Attach(runs: seq<Run>, t: Turn): seq<Run> {
    var m := |runs| - 1;
    if runs != [] && runs[m].role == t.role then runs[..m] + [Extended(runs[m], t.content)]
    else runs + [Run(t.role, [t.content])]
  }

  function Extended(r: Run, content: string): Run {
    Run(r.role, r.contents + [content])
  }

  // The maximal stretches of one role, in order.
  function Runs(turns: seq<Turn>): (runs: seq<Run>)
    ensures turns == [] <==> runs == []
  {
    if turns == [] then [] else Attach(Runs(turns[..|turns| - 1]), turns[|turns| - 1])
  }

  function TurnsOf(r: Run): (turns: seq<Turn>)
    ensures |turns| == |r.contents|
    ensures forall i :: 0 <= i < |turns| ==> turns[i] == Turn(r.role, r.contents[i])
  {
    seq(|r.contents|, i requires 0 <= i < |r.contents| => Turn(r.role, r.contents[i]))
  }

  function Flatten(runs: seq<Run>): seq<Turn> {
    if runs == [] then [] else Flatten(runs[..|runs| - 1]) + TurnsOf(runs[|runs| - 1])
  }

  // No run is empty, and the run before it has the other role.
  ghost predicate Maximal(runs: seq<Run>)
    decreases |runs|
  {
    var m := |runs| - 1;
    runs == [] ||
    (runs[m].contents != [] && (m > 0 ==> runs[m - 1].role != runs[m].role) && Maximal(runs[..m]))
  }

  lemma RunsStep(turns: seq<Turn>, t: Turn)
    ensures Runs(turns + [t]) == Attach(Runs(turns), t)
  {
    assert (turns + [t])[..|turns|] == turns;
  }

  lemma SnocFlatten(runs: seq<Run>, r: Run)
    ensures Flatten(runs + [r]) == Flatten(runs) + TurnsOf(r)
  {
    assert (runs + [r])[..|runs|] == runs;
  }

  lemma SnocMaximal(runs: seq<Run>, r: Run)
    ensures Maximal(runs + [r]) <==>
              Maximal(runs) && r.contents != [] && (runs != [] ==> runs[|runs| - 1].role != r.role)
  {
    assert (runs + [r])[..|runs|] == runs;
  }

  lemma ExtendedTurns(r: Run, content: string)
    ensures TurnsOf(Extended(r, content)) == TurnsOf(r) + [Turn(r.role, content)]
  {}

  lemma AttachKeeps(runs: seq<Run>, t: Turn)
    requires Maximal(runs)
    ensures Maximal(Attach(runs, t)) && Flatten(Attach(runs, t)) == Flatten(runs) + [t]
  {
    var m := |runs| - 1;
    if runs != [] && runs[m].role == t.role {
      var front, last := runs[..m], runs[m];
      assert runs == front + [last];
      SnocMaximal(front, last);
      SnocMaximal(front, Extended(last, t.content));
      SnocFlatten(front, last);
      SnocFlatten(front, Extended(last, t.content));
      ExtendedTurns(last, t.content);
      ConcatAssoc(Flatten(front), TurnsOf(last), [t]);
    } else {
      var r := Run(t.role, [t.content]);
      SnocMaximal(runs, r);
      SnocFlatten(runs, r);
      assert TurnsOf(r) == [t];
    }
  }

  lemma RunsAreMaximalStep(front: seq<Turn>, t: Turn)
    requires Flatten(Runs(front)) == front && Maximal(Runs(front))
    ensures Flatten(Runs(front + [t])) == front + [t] && Maximal(Runs(front + [t]))
  {
    RunsStep(front, t);
    AttachKeeps(Runs(front), t);
  }

  lemma {:induction false} RunsAreMaximal(turns: seq<Turn>)
    ensures Flatten(Runs(turns)) == turns && Maximal(Runs(turns))
  {
    if turns != [] {
      var n := |turns| - 1;
      RunsAreMaximal(turns[..n]);
      RunsAreMaximalStep(turns[..n], turns[n]);
      assert turns[..n] + [turns[n]] == turns;
    }
  }

  // There is only one way to cut a list of turns into maximal runs.
  lemma {:induction false} RunsAreUnique(runs: seq<Run>)
    requires Maximal(runs)
    ensures Runs(Flatten(runs)) == runs
    decreases |Flatten(runs)|
  {
    if runs != [] {
      var front, last := runs[..|runs| - 1], runs[|runs| - 1];
      assert runs == front + [last];
      if |last.contents| == 1 { LastOfOne(front, last); } else { LastOfMore(front, last); }
    }
  }

  lemma {:induction false} LastOfOne(front: seq<Run>, last: Run)
    requires Maximal(front + [last]) && |last.contents| == 1
    ensures Runs(Flatten(front + [last])) == front + [last]
    decreases |Flatten(front + [last])|, 0
  {
    var t := Turn(last.role, last.contents[0]);
    SnocFlatten(front, last);
    SnocMaximal(front, last);
    assert TurnsOf(last) == [t] && last == Run(t.role, [t.content]);
    RunsAreUnique(front);
    RunsStep(Flatten(front), t);
  }

  lemma {:induction false} LastOfMore(front: seq<Run>, last: Run)
    requires Maximal(front + [last]) && |last.contents| > 1
    ensures Runs(Flatten(front + [last])) == front + [last]
    decreases |Flatten(front + [last])|, 0
  {
    var k := |last.contents| - 1;
    var content := last.contents[k];
    var less := Run(last.role, last.contents[..k]);
    assert last == Extended(less, content);
    ExtendedTurns(less, content);
    SnocMaximal(front, last);
    SnocMaximal(front, less);
    SnocFlatten(front, last);
    SnocFlatten(front, less);
    ConcatAssoc(Flatten(front), TurnsOf(less), [Turn(last.role, content)]);
    RunsAreUnique(front + [less]);
    RunsStep(Flatten(front + [less]), Turn(last.role, content));
    AttachExtends(front, less, content);
  }

  lemma AttachExtends(front: seq<Run>, r: Run, content: string)
    ensures Attach(front + [r], Turn(r.role, content)) == front + [Extended(r, content)]
  {
    assert (front + [r])[..|front|] == front;
  }

  // ---------------------------------------------------------------- what is sent

  function Join(contents: seq<string>): string {
    if contents == [] then ""
    else if |contents| == 1 then contents[0]
    else Join(contents[..|contents| - 1]) + SEPARATOR + contents[|contents| - 1]
  }

  function JoinAll(runs: seq<Run>): (r: seq<Turn>)
    ensures |r| == |runs|
    ensures forall i :: 0 <= i < |r| ==> r[i] == Turn(runs[i].role, Join(runs[i].contents))
  {
    seq(|runs|, i requires 0 <= i < |runs| => Turn(runs[i].role, Join(runs[i].contents)))
  }

  function Merged(turns: seq<Turn>): seq<Turn> {
    JoinAll(Runs(turns))
  }

  function Opened(turns: seq<Turn>): seq<Turn> {
    if turns != [] && turns[0].role != User then [OPENER] + turns else turns
  }

  function Normalised(messages: seq<Message>): seq<Turn> {
    Opened(Merged(if Turns(messages) == [] then [OPENER] else Turns(messages)))
  }

  // The normalisation in create. system is the system prompt, when there is one to send.
  method Normalise(messages: seq<Message>) returns (system: Option<string>, normalized: seq<Turn>)
    ensures normalized == Normalised(messages)
    ensures var text := Strip(SystemText(messages), Blank);
            system == if text == "" then None else Some(text)
  {
    var prompt, turns := Collect(messages);
    if turns == [] {
      turns := [OPENER];
    }
    normalized := Merge(turns);
    if normalized != [] && normalized[0].role != User {
      normalized := [OPENER] + normalized;
    }
    var text := Strip(prompt, Blank);
    system := if text == "" then None else Some(text);
  }

  method Collect(messages: seq<Message>) returns (prompt: string, turns: seq<Turn>)
    ensures prompt == SystemText(messages) && turns == Turns(messages)
  {
    prompt, turns := "", [];
    for i := 0 to |messages|
      invariant prompt == SystemText(messages[..i])
      invariant turns == Turns(messages[..i])
    {
      assert messages[..i + 1][..i] == messages[..i];
      var role, content := RoleOf(messages[i]), ContentOf(messages[i]);
      if role == "system" {
        prompt := prompt + (content + SEPARATOR);
      } else if role == "user" || role == "assistant" {
        turns := turns + [Turn(if role == "user" then User else Assistant, content)];
      }
    }
    assert messages[..|messages|] == messages;
  }

  method Merge(turns: seq<Turn>) returns (merged: seq<Turn>)
    ensures merged == Merged(turns)
  {
    merged := [];
    for i := 0 to |turns|
      invariant merged == Merged(turns[..i])
    {
      MergedStep(turns[..i], turns[i]);
      assert turns[..i + 1] == turns[..i] + [turns[i]];
      var n := |merged| - 1;
      ghost var before := merged;
      if merged != [] && merged[n].role == turns[i].role {
        merged := merged[n := merged[n].(content := merged[n].content + (SEPARATOR + turns[i].content))];
      } else {
        merged := merged + [turns[i]];
      }
      assert merged == Glued(before, turns[i]);
    }
    assert turns[..|turns|] == turns;
  }

  // One more turn, put behind the last one if that has the same role.
  function Glued(m: seq<Turn>, t: Turn): seq<Turn> {
    var n := |m| - 1;
    if m != [] && m[n].role == t.role then m[n := Turn(t.role, m[n].content + (SEPARATOR + t.content))] else m + [t]
  }

  lemma JoinAllSnoc(runs: seq<Run>, r: Run)
    ensures JoinAll(runs + [r]) == JoinAll(runs) + [Turn(r.role, Join(r.contents))]
  {}

  lemma GluedEnd(m: seq<Turn>, last: Turn, t: Turn)
    requires last.role == t.role
    ensures Glued(m + [last], t) == m + [Turn(t.role, last.content + (SEPARATOR + t.content))]
  {}

  lemma AttachJoins(runs: seq<Run>, t: Turn)
    requires Maximal(runs)
    ensures JoinAll(Attach(runs, t)) == Glued(JoinAll(runs), t)
  {
    var m := |runs| - 1;
    if runs != [] && runs[m].role == t.role {
      var front, last := runs[..m], runs[m];
      assert runs == front + [last];
      JoinStep(last.contents, t.content);
      JoinAllSnoc(front, last);
      JoinAllSnoc(front, Extended(last, t.content));
      GluedEnd(JoinAll(front), Turn(last.role, Join(last.contents)), t);
    } else {
      JoinAllSnoc(runs, Run(t.role, [t.content]));
    }
  }

  lemma MergedStep(turns: seq<Turn>, t: Turn)
    ensures Merged(turns + [t]) == Glued(Merged(turns), t)
  {
    RunsStep(turns, t);
    RunsAreMaximal(turns);
    AttachJoins(Runs(turns), t);
  }

  lemma JoinStep(contents: seq<string>, content: string)
    requires contents != []
    ensures Join(contents + [content]) == Join(contents) + (SEPARATOR + content)
  {
    assert (contents + [content])[..|contents|] == contents;
    ConcatAssoc(Join(contents), SEPARATOR, content);
  }

  // The entries of a run are joined by a blank line, in order.
  lemma {:induction false} JoinConcat(a: seq<string>, b: seq<string>)
    requires a != [] && b != []
    ensures Join(a + b) == Join(a) + "\n\n" + Join(b)
    ensures |a| == 1 ==> Join(a) == a[0]
    decreases |b|
  {
    var n := |b| - 1;
    assert (a + b)[..|a + b| - 1] == a + b[..n];
    if n == 0 {
      assert a + b[..0] == a;
    } else {
      JoinConcat(a, b[..n]);
      ConcatAssoc(Join(a) + "\n\n", Join(b[..n]), "\n\n");
      ConcatAssoc(Join(a) + "\n\n", Join(b[..n]) + "\n\n", b[n]);
    }
  }

  // ---------------------------------------------------------------- the system prompt

  lemma {:induction false} PromptIsJoined(messages: seq<Message>)
    ensures var contents := SystemContents(messages);
            SystemText(messages) == if contents == [] then "" else Join(contents) + "\n\n"
    decreases |messages|
  {
    if messages != [] {
      var n := |messages| - 1;
      var before, content := SystemContents(messages[..n]), ContentOf(messages[n]);
      PromptIsJoined(messages[..n]);
      if RoleOf(messages[n]) == "system" {
        if before == [] {
          assert [] + [content] == [content] && "" + (content + SEPARATOR) == content + SEPARATOR;
        } else {
          JoinStep(before, content);
          ConcatAssoc(Join(before) + SEPARATOR, content, SEPARATOR);
          ConcatAssoc(Join(before), SEPARATOR, content);
        }
      } else {
        assert before + [] == before;
      }
    }
  }

  lemma {:induction false} LStripBehind(s: string, tail: string, blank: char -> bool)
    requires forall c :: c in tail ==> blank(c)
    ensures LStrip(s + tail, blank) == if LStrip(s, blank) == "" then "" else LStrip(s, blank) + tail
    decreases |s + tail|
  {
    if s == "" {
      assert s + tail == tail;
      if tail != "" {
        assert tail[0] in tail && "" + tail[1..] == tail[1..];
        LStripBehind("", tail[1..], blank);
      }
    } else if blank(s[0]) {
      assert (s + tail)[1..] == s[1..] + tail;
      LStripBehind(s[1..], tail, blank);
    }
  }

  lemma {:induction false} RStripBehind(s: string, tail: string, blank: char -> bool)
    requires forall c :: c in tail ==> blank(c)
    ensures RStrip(s + tail, blank) == RStrip(s, blank)
    decreases |tail|
  {
    if tail == "" {
      assert s + tail == s;
    } else {
      var n := |tail| - 1;
      assert tail[n] in tail && (s + tail)[..|s + tail| - 1] == s + tail[..n];
      RStripBehind(s, tail[..n], blank);
    }
  }

  // The system prompt is the contents of the system messages, in order, joined by blank lines and stripped.
  lemma SystemPromptIsTheContents(messages: seq<Message>)
    ensures Strip(SystemText(messages), Blank) == Strip(Join(SystemContents(messages)), Blank)
  {
    PromptIsJoined(messages);
    var contents := SystemContents(messages);
    if contents != [] {
      LStripBehind(Join(contents), "\n\n", Blank);
      RStripBehind(LStrip(Join(contents), Blank), "\n\n", Blank);
    }
  }

  // ---------------------------------------------------------------- what the provider relies on

  // Each turn has another role than the turn before it.
  ghost predicate Alternates(turns: seq<Turn>)
    decreases |turns|
  {
    var n := |turns| - 1;
    turns == [] || ((n > 0 ==> turns[n - 1].role != turns[n].role) && Alternates(turns[..n]))
  }

  lemma SnocAlternates(turns: seq<Turn>, t: Turn)
    ensures Alternates(turns + [t]) <==>
              Alternates(turns) && (turns != [] ==> turns[|turns| - 1].role != t.role)
  {
    assert (turns + [t])[..|turns|] == turns;
  }

  lemma {:induction false} ConsAlternates(t: Turn, turns: seq<Turn>)
    requires Alternates(turns) && (turns != [] ==> t.role != turns[0].role)
    ensures Alternates([t] + turns)
    decreases |turns|
  {
    if turns == [] {
      assert [t] + turns == [] + [t];
      SnocAlternates([], t);
    } else {
      var n := |turns| - 1;
      assert [t] + turns == ([t] + turns[..n]) + [turns[n]];
      ConsAlternates(t, turns[..n]);
      SnocAlternates([t] + turns[..n], turns[n]);
    }
  }

  lemma {:induction false} AlternatesAt(turns: seq<Turn>, i: nat)
    requires Alternates(turns) && 0 < i < |turns|
    ensures turns[i - 1].role != turns[i].role
    decreases |turns|
  {
    var n := |turns| - 1;
    if i < n { AlternatesAt(turns[..n], i); }
  }

  lemma {:induction false} MaximalAlternates(runs: seq<Run>)
    requires Maximal(runs)
    ensures Alternates(JoinAll(runs))
    decreases |runs|
  {
    if runs != [] {
      var front, last := runs[..|runs| - 1], runs[|runs| - 1];
      assert runs == front + [last];
      MaximalAlternates(front);
      JoinAllSnoc(front, last);
      SnocAlternates(JoinAll(front), Turn(last.role, Join(last.contents)));
    }
  }

  lemma MergedAlternates(turns: seq<Turn>)
    ensures Alternates(Merged(turns)) && (turns != [] ==> Merged(turns) != [])
  {
    RunsAreMaximal(turns);
    MaximalAlternates(Runs(turns));
  }

  lemma OpenedAlternates(turns: seq<Turn>)
    requires Alternates(turns)
    ensures Alternates(Opened(turns))
  {
    if turns != [] && turns[0].role != User { ConsAlternates(OPENER, turns); }
  }

  // Whatever the messages, the list that is sent is not empty, starts with the user, and the roles alternate.
  lemma NormalisedIsWellFormed(messages: seq<Message>)
    ensures var r := Normalised(messages);
            && r != [] && r[0].role == User && Alternates(r)
            && forall i :: 0 < i < |r| ==> r[i - 1].role != r[i].role
  {
    var turns := if Turns(messages) == [] then [OPENER] else Turns(messages);
    MergedAlternates(turns);
    OpenedAlternates(Merged(turns));
    var r := Normalised(messages);
    forall i | 0 < i < |r| ensures r[i - 1].role != r[i].role { AlternatesAt(r, i); }
  }

  // Its entries are the maximal runs of the user and assistant messages, each joined in order, after an
  // opener where the first run is the assistant's or there is none.
  lemma EntriesAreJoinedRuns(messages: seq<Message>, runs: seq<Run>)
    requires Maximal(runs) && Flatten(runs) == Turns(messages)
    ensures Normalised(messages) ==
              (if runs == [] || runs[0].role == Assistant then [Turn(User, "Please proceed.")] else []) + JoinAll(runs)
  {
    RunsAreUnique(runs);
    if runs == [] {
      OpenerAlone();
    }
  }

  lemma OpenerAlone()
    ensures Merged([OPENER]) == [OPENER]
  {
    assert [] + [OPENER] == [OPENER];
    RunsStep([], OPENER);
    assert Runs([OPENER]) == [Run(User, [OPENER.content])];
  }

  lemma AlternatingRunsStep(front: seq<Turn>, t: Turn)
    requires Merged(front) == front && Alternates(front + [t])
    ensures Merged(front + [t]) == front + [t]
  {
    SnocAlternates(front, t);
    MergedStep(front, t);
  }

  lemma {:induction false} AlternatingRuns(turns: seq<Turn>)
    requires Alternates(turns)
    ensures Merged(turns) == turns
  {
    if turns != [] {
      var n := |turns| - 1;
      assert turns[..n] + [turns[n]] == turns;
      SnocAlternates(turns[..n], turns[n]);
      AlternatingRuns(turns[..n]);
      AlternatingRunsStep(turns[..n], turns[n]);
    }
  }

  function AsMessage(t: Turn): Message {
    Message(Some(if t.role == User then "user" else "assistant"), Some(t.content))
  }

  function AsMessages(turns: seq<Turn>): (r: seq<Message>)
    ensures |r| == |turns| && forall i :: 0 <= i < |r| ==> r[i] == AsMessage(turns[i])
  {
    seq(|turns|, i requires 0 <= i < |turns| => AsMessage(turns[i]))
  }

  lemma {:induction false} TurnsOfMessages(turns: seq<Turn>)
    ensures Turns(AsMessages(turns)) == turns
  {
    if turns != [] {
      var n := |turns| - 1;
      var ms := AsMessages(turns);
      TurnsOfMessages(turns[..n]);
      assert ms[..n] == AsMessages(turns[..n]) && ms[n] == AsMessage(turns[n]);
      assert turns == turns[..n] + [turns[n]];
    }
  }

  // Normalising what was normalised changes nothing.
  lemma NormalisedIsStable(messages: seq<Message>)
    ensures Normalised(AsMessages(Normalised(messages))) == Normalised(messages)
  {
    NormalisedIsWellFormed(messages);
    TurnsOfMessages(Normalised(messages));
    AlternatingRuns(Normalised(messages));
  }
}
