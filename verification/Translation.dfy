/** Turning a stream of OpenAI chunks into the Anthropic event sequence. */
module Translation {
  import opened Sequences
  import opened Text
  import opened EventStream

  // One choice of a chunk: its index, its text, and its finish reason when that is a string.
  datatype Finish = NoFinish | NotAString | Reason(reason: string)
  datatype Choice = Choice(index: int, content: string, finish: Finish)

  // What unmarshalling a payload yields.
  datatype Parsed = Bad | Good(choices: seq<Choice>)

  datatype Event =
    | MessageStart(id: string, model: string)
    | ContentBlockStart(index: int)
    | Ping
    | ContentBlockDelta(index: int, text: string)
    | ContentBlockStop(index: int)
    | MessageDelta(stopReason: string, outputTokens: nat)
    | MessageStop

  function MapFinishReason(reason: string): (r: string)
    ensures r != ""
    ensures r == "max_tokens" <==> reason == "length"
    ensures r == "tool_use" <==> reason == "tool_calls"
    ensures r in {"end_turn", "max_tokens", "tool_use"}
  {
    assert "end_turn"[0] != "max_tokens"[0] && "end_turn"[0] != "tool_use"[0] && "max_tokens"[0] != "tool_use"[0];
    assert "length"[0] != "tool_calls"[0] && "stop"[0] != "length"[0] && "stop"[0] != "tool_calls"[0];
    if reason == "stop" then "end_turn"
    else if reason == "length" then "max_tokens"
    else if reason == "tool_calls" then "tool_use"
    else "end_turn"
  }

  // ---- What an upstream stream says, read without looking at events ----

  // The choices of all parsable chunks before the first sentinel, in order.
  function Choices(lines: seq<string>, parse: string -> Parsed): seq<Choice> {
    ChunkChoices(PayloadsBeforeDone(lines), parse)
  }

  function ParsedChoices(data: string, parse: string -> Parsed): seq<Choice> {
    match parse(data) case Bad => [] case Good(choices) => choices
  }

  function ChunkChoices(payloads: seq<string>, parse: string -> Parsed): seq<Choice> {
    if payloads == [] then []
    else ParsedChoices(payloads[0], parse) + ChunkChoices(payloads[1..], parse)
  }

  function ReplyText(choices: seq<Choice>): string {
    if choices == [] then "" else ReplyText(choices[..|choices|-1]) + choices[|choices|-1].content
  }

  // The last finish reason given as a string.
  function LastFinish(choices: seq<Choice>): Finish {
    if choices == [] then NoFinish
    else if choices[|choices|-1].finish.Reason? then choices[|choices|-1].finish
    else LastFinish(choices[..|choices|-1])
  }

  // ---- The translation ----

  function Deltas(choices: seq<Choice>): seq<Event> {
    if choices == [] then []
    else
      var c := choices[|choices|-1];
      Deltas(choices[..|choices|-1]) + if c.content != "" then [ContentBlockDelta(c.index, c.content)] else []
  }

  function StopReason(choices: seq<Choice>): string {
    if LastFinish(choices).Reason? then MapFinishReason(LastFinish(choices).reason) else "end_turn"
  }

  function Translated(id: string, model: string, choices: seq<Choice>): seq<Event> {
    [MessageStart(id, model), ContentBlockStart(0), Ping] + Deltas(choices)
    + [ContentBlockStop(0), MessageDelta(StopReason(choices), |Deltas(choices)|), MessageStop]
  }

  // The choices of the chunks, one chunk after the other; unparsable ones have none.
  lemma ChoicesMean(payloads: seq<string>, data: string, parse: string -> Parsed)
    ensures ChunkChoices([], parse) == []
    ensures ChunkChoices([data] + payloads, parse)
         == (match parse(data) case Bad => [] case Good(choices) => choices) + ChunkChoices(payloads, parse)
  {
    assert ([data] + payloads)[1..] == payloads;
  }

  // What a client reads off the events: the text of all deltas, and how the message ended.
  function EventText(events: seq<Event>): string {
    if events == [] then ""
    else
      var e := events[|events|-1];
      EventText(events[..|events|-1]) + if e.ContentBlockDelta? then e.text else ""
  }

  lemma {:induction false} EventTextConcat(a: seq<Event>, b: seq<Event>)
    ensures EventText(a + b) == EventText(a) + EventText(b)
  {
    if b == [] {
      assert a + b == a;
    } else {
      EventTextConcat(a, b[..|b|-1]);
      assert (a + b)[..|a + b| - 1] == a + b[..|b|-1];
    }
  }

  lemma {:induction false} DeltasSayReply(choices: seq<Choice>)
    ensures EventText(Deltas(choices)) == ReplyText(choices)
    ensures forall i :: 0 <= i < |Deltas(choices)| ==>
              Deltas(choices)[i].ContentBlockDelta? && Deltas(choices)[i].text != ""
  {
    if choices != [] {
      var front, c := choices[..|choices|-1], choices[|choices|-1];
      DeltasSayReply(front);
      if c.content != "" {
        var d := ContentBlockDelta(c.index, c.content);
        EventTextConcat(Deltas(front), [d]);
        assert [d][..0] == [];
        assert EventText([d]) == c.content;
      } else {
        assert Deltas(choices) == Deltas(front);
      }
    }
  }

  lemma {:induction false} NoText(events: seq<Event>)
    requires forall i :: 0 <= i < |events| ==> !events[i].ContentBlockDelta?
    ensures EventText(events) == ""
  {
    if events != [] { NoText(events[..|events|-1]); }
  }

  // Translation keeps the meaning: the event sequence has the fixed frame, its deltas say
  // exactly the reply, it counts its own deltas, and it ends for the last stated reason.
  lemma TranslationKeepsMeaning(id: string, model: string, choices: seq<Choice>)
    ensures var events := Translated(id, model, choices);
            var n := |events|;
            && n >= 6
            && events[..3] == [MessageStart(id, model), ContentBlockStart(0), Ping]
            && (forall i :: 3 <= i < n - 3 ==> events[i].ContentBlockDelta? && events[i].text != "")
            && events[n-3..] == [ContentBlockStop(0), MessageDelta(StopReason(choices), n - 6), MessageStop]
            && EventText(events) == ReplyText(choices)
  {
    var events := Translated(id, model, choices);
    var head, deltas := [MessageStart(id, model), ContentBlockStart(0), Ping], Deltas(choices);
    var tail := [ContentBlockStop(0), MessageDelta(StopReason(choices), |deltas|), MessageStop];
    DeltasSayReply(choices);
    assert events == head + deltas + tail;
    assert forall i :: 3 <= i < |events| - 3 ==> events[i] == deltas[i-3];
    TextOfFrame(head, deltas, tail);
  }

  predicate HasText(c: Choice) { c.content != "" }

  function DeltaOf(c: Choice): Event { ContentBlockDelta(c.index, c.content) }

  // reason is what the last finish reason given as a string maps to, or the end of a turn.
  ghost predicate StopsWith(choices: seq<Choice>, reason: string) {
    || (reason == "end_turn" && forall i :: 0 <= i < |choices| ==> !choices[i].finish.Reason?)
    || exists i :: 0 <= i < |choices| && choices[i].finish.Reason?
                   && (forall j :: i < j < |choices| ==> !choices[j].finish.Reason?)
                   && reason == if choices[i].finish == Reason("length") then "max_tokens"
                                else if choices[i].finish == Reason("tool_calls") then "tool_use"
                                else "end_turn"
  }

  // All events of a reply: one delta for each choice that has text, in order, between the frame,
  // the last part of which counts the deltas and tells why the reply ended.
  lemma TranslationMeans(id: string, model: string, choices: seq<Choice>) returns (reason: string)
    ensures var deltas := Map(DeltaOf, Filter(HasText, choices));
            Translated(id, model, choices)
            == [MessageStart(id, model), ContentBlockStart(0), Ping] + deltas
               + [ContentBlockStop(0), MessageDelta(reason, |deltas|), MessageStop]
    ensures StopsWith(choices, reason)
    ensures ReplyText(choices) == Concat(Map((c: Choice) => c.content, choices))
  {
    reason := StopReason(choices);
    DeltasMean(choices);
    ReplyTextMeans(choices);
    StopReasonMeans(choices);
  }

  lemma {:induction false} DeltasMean(choices: seq<Choice>)
    ensures Deltas(choices) == Map(DeltaOf, Filter(HasText, choices))
  {
    if choices != [] {
      DeltasMean(choices[..|choices|-1]);
      FilterSnoc(HasText, choices);
    }
  }

  lemma {:induction false} ReplyTextMeans(choices: seq<Choice>)
    ensures ReplyText(choices) == Concat(Map((c: Choice) => c.content, choices))
  {
    if choices != [] {
      var front, c := choices[..|choices|-1], choices[|choices|-1];
      ReplyTextMeans(front);
      assert choices == front + [c];
      MapSnoc((x: Choice) => x.content, front, c);
      ConcatSnoc(Map((x: Choice) => x.content, front), c.content);
    }
  }

  lemma StopReasonMeans(choices: seq<Choice>)
    ensures StopsWith(choices, StopReason(choices))
  {
    var i := LastFinishAt(choices);
    if i >= 0 {
      assert choices[i].finish.Reason?;
      assert MapFinishReason(choices[i].finish.reason) in {"end_turn", "max_tokens", "tool_use"};
    }
  }

  lemma {:induction false} LastFinishAt(choices: seq<Choice>) returns (i: int)
    ensures -1 <= i < |choices| && forall j :: i < j < |choices| ==> !choices[j].finish.Reason?
    ensures if i < 0 then LastFinish(choices) == NoFinish
            else choices[i].finish.Reason? && LastFinish(choices) == choices[i].finish
  {
    i := |choices| - 1;
    if choices != [] && !choices[i].finish.Reason? {
      i := LastFinishAt(choices[..i]);
    }
  }

  lemma TextOfFrame(head: seq<Event>, deltas: seq<Event>, tail: seq<Event>)
    requires forall i :: 0 <= i < |head| ==> !head[i].ContentBlockDelta?
    requires forall i :: 0 <= i < |tail| ==> !tail[i].ContentBlockDelta?
    ensures EventText(head + deltas + tail) == EventText(deltas)
  {
    EventTextConcat(head + deltas, tail);
    EventTextConcat(head, deltas);
    NoText(head);
    NoText(tail);
    assert "" + EventText(deltas) + "" == EventText(deltas);
  }

  // The text a client can read does not depend on how upstream cut it into choices.
  lemma CutsDoNotMatter(id: string, model: string, a: seq<Choice>, b: seq<Choice>)
    requires ReplyText(a) == ReplyText(b) && LastFinish(a) == LastFinish(b)
    ensures EventText(Translated(id, model, a)) == EventText(Translated(id, model, b))
    ensures Translated(id, model, a)[|Translated(id, model, a)|-2].stopReason
         == Translated(id, model, b)[|Translated(id, model, b)|-2].stopReason
  {
    TranslationKeepsMeaning(id, model, a);
    TranslationKeepsMeaning(id, model, b);
    assert StopReason(a) == StopReason(b);
  }

  // What the loop has written, counted and noted after the given choices.
  ghost predicate Progress(head: seq<Event>, before: seq<Choice>, events: seq<Event>, outputTokens: nat,
                           stopReason: string) {
    && events == head + Deltas(before)
    && outputTokens == |Deltas(before)|
    && stopReason == if LastFinish(before).Reason? then StopReason(before) else ""
  }

  method EmitChoice(choice: Choice, events0: seq<Event>, outputTokens0: nat, stopReason0: string,
                    ghost before: seq<Choice>, ghost head: seq<Event>)
    returns (events: seq<Event>, outputTokens: nat, stopReason: string)
    requires Progress(head, before, events0, outputTokens0, stopReason0)
    ensures Progress(head, before + [choice], events, outputTokens, stopReason)
  {
    events, outputTokens, stopReason := events0, outputTokens0, stopReason0;
    assert (before + [choice])[..|before|] == before;
    if choice.content != "" {
      events := events + [ContentBlockDelta(choice.index, choice.content)];
      outputTokens := outputTokens + 1;
    }
    if choice.finish.Reason? {
      stopReason := MapFinishReason(choice.finish.reason);
    }
  }

  // The loop over the choices of one chunk.
  method EmitChoices(choices: seq<Choice>, events0: seq<Event>, outputTokens0: nat, stopReason0: string,
                     ghost before: seq<Choice>, ghost head: seq<Event>)
    returns (events: seq<Event>, outputTokens: nat, stopReason: string)
    requires Progress(head, before, events0, outputTokens0, stopReason0)
    ensures Progress(head, before + choices, events, outputTokens, stopReason)
  {
    events, outputTokens, stopReason := events0, outputTokens0, stopReason0;
    assert before + choices[..0] == before;
    for k := 0 to |choices|
      invariant Progress(head, before + choices[..k], events, outputTokens, stopReason)
    {
      assert before + choices[..k+1] == (before + choices[..k]) + [choices[k]];
      events, outputTokens, stopReason :=
        EmitChoice(choices[k], events, outputTokens, stopReason, before + choices[..k], head);
    }
    assert choices[..|choices|] == choices;
  }

  // What one line says; the sentinel says nothing.
  function LineChoices(line: string, parse: string -> Parsed): seq<Choice> {
    if IsData(line) && Payload(line) != DONE then ParsedChoices(Payload(line), parse) else []
  }

  predicate IsDone(line: string) { IsData(line) && Payload(line) == DONE }

  // The body of the scan loop; done reports the break at the sentinel.
  method TranslateLine(line: string, parse: string -> Parsed, events0: seq<Event>, outputTokens0: nat,
                       stopReason0: string, ghost before: seq<Choice>, ghost head: seq<Event>)
    returns (done: bool, events: seq<Event>, outputTokens: nat, stopReason: string)
    requires Progress(head, before, events0, outputTokens0, stopReason0)
    ensures done <==> IsDone(line)
    ensures Progress(head, before + LineChoices(line, parse), events, outputTokens, stopReason)
  {
    done, events, outputTokens, stopReason := false, events0, outputTokens0, stopReason0;
    assert before + [] == before;
    if !(|line| >= 6 && line[..6] == "data: ") {
      return;
    }
    var data := line[6..];
    if data == "[DONE]" {
      done := true;
      return;
    }
    var chunk := parse(data);
    if chunk.Bad? {
      return;
    }
    events, outputTokens, stopReason := EmitChoices(chunk.choices, events, outputTokens, stopReason, before, head);
  }

  // The scan loop. cancelled says whether the request context is done when a line is scanned; the
  // break it leads to leaves only the select statement, so the events do not depend on it.
  method TranslateLines(lines: seq<string>, parse: string -> Parsed, cancelled: nat -> bool, events0: seq<Event>)
    returns (events: seq<Event>, outputTokens: nat, stopReason: string)
    ensures Progress(events0, Choices(lines, parse), events, outputTokens, stopReason)
  {
    events, outputTokens, stopReason := events0, 0, "";
    ghost var before: seq<Choice> := [];
    for n := 0 to |lines|
      invariant Progress(events0, before, events, outputTokens, stopReason)
      invariant before + Choices(lines[n..], parse) == Choices(lines, parse)
    {
      label Select: {
        if cancelled(n) { break Select; }
      }
      NextLine(before, lines, n, parse);
      var done;
      done, events, outputTokens, stopReason :=
        TranslateLine(lines[n], parse, events, outputTokens, stopReason, before, events0);
      before := before + LineChoices(lines[n], parse);
      if done {
        return;
      }
    }
    assert before + [] == before;
  }

  lemma NextLine(before: seq<Choice>, lines: seq<string>, n: nat, parse: string -> Parsed)
    requires n < |lines|
    ensures before + Choices(lines[n..], parse)
         == before + LineChoices(lines[n], parse) + if IsDone(lines[n]) then [] else Choices(lines[n+1..], parse)
  {
    assert lines[n..][1..] == lines[n+1..];
    FirstLine(lines[n..], parse);
  }

  lemma FirstLine(lines: seq<string>, parse: string -> Parsed)
    requires lines != []
    ensures Choices(lines, parse)
         == LineChoices(lines[0], parse) + if IsDone(lines[0]) then [] else Choices(lines[1..], parse)
  {
    if IsData(lines[0]) && !IsDone(lines[0]) {
      var data := Payload(lines[0]);
      assert ([data] + PayloadsBeforeDone(lines[1..]))[1..] == PayloadsBeforeDone(lines[1..]);
    }
  }

  // The success path of handleStreaming: the same events whenever the request is cancelled.
  method HandleStreaming(upstream: string, fits: string -> bool, parse: string -> Parsed, cancelled: nat -> bool,
                         msgID: string, model: string)
    returns (events: seq<Event>)
    ensures events == Translated(msgID, model, Choices(Scanned(RawLines(upstream), fits), parse))
  {
    events := [MessageStart(msgID, model), ContentBlockStart(0), Ping];
    var outputTokens, stopReason;
    events, outputTokens, stopReason := TranslateLines(Scanned(RawLines(upstream), fits), parse, cancelled, events);
    if stopReason == "" {
      stopReason := "end_turn";
    }
    events := events + [ContentBlockStop(0)];
    events := events + [MessageDelta(stopReason, outputTokens)];
    events := events + [MessageStop];
  }

  // ---- Framing ----

  datatype Frame = Frame(event: string, data: string)

  // One event as text; marshalled JSON contains no line break.
  function FormatFrame(f: Frame): string {
    "event: " + f.event + "\n" + "data: " + f.data + "\n\n"
  }

  function FormatFrames(frames: seq<Frame>): string {
    if frames == [] then "" else FormatFrames(frames[..|frames|-1]) + FormatFrame(frames[|frames|-1])
  }

  function FrameLines(frames: seq<Frame>): seq<string> {
    if frames == [] then []
    else
      var f := frames[|frames|-1];
      FrameLines(frames[..|frames|-1]) + ["event: " + f.event, "data: " + f.data, ""]
  }

  ghost predicate OneLine(f: Frame) { Unbroken(f.event) && Unbroken(f.data) }

  // The text of the events splits back into one event line, one data line and one blank line
  // each, with nothing left over.
  lemma {:induction false} FramesAreRecovered(frames: seq<Frame>)
    requires forall i :: 0 <= i < |frames| ==> OneLine(frames[i])
    ensures CompleteLines(FormatFrames(frames)) == FrameLines(frames) && Tail(FormatFrames(frames)) == ""
  {
    if frames == [] {
      UnbrokenIsTail("");
    } else {
      var front, f := frames[..|frames|-1], frames[|frames|-1];
      FramesAreRecovered(front);
      SplitCarries(FormatFrames(front), FormatFrame(f));
      assert "" + FormatFrame(f) == FormatFrame(f);
      OneFrame(f);
    }
  }

  lemma OneFrame(f: Frame)
    requires OneLine(f)
    ensures CompleteLines(FormatFrame(f)) == ["event: " + f.event, "data: " + f.data, ""] && Tail(FormatFrame(f)) == ""
  {
    var first, second := "event: " + f.event, PREFIX + f.data + "\n\n";
    LineBlock(first);
    DataBlock(f.data);
    BlockLines(first + "\n", second);
    assert FormatFrame(f) == (first + "\n") + second;
  }
}
