/** Relaying an event stream to the browser and reassembling it there, however the bytes are
    cut into reads. Text is modelled as characters. */
module EventStream {
  import opened Sequences
  import opened Text

  // ---- The browser ----

  // Whitespace and line terminators of the JavaScript trim function.
  predicate IsSpace(c: char) {
    var n := c as int;
    9 <= n <= 13 || n == 32 || n == 0xA0 || n == 0x1680 || 0x2000 <= n <= 0x200A || n == 0x2028 || n == 0x2029
    || n == 0x202F || n == 0x205F || n == 0x3000 || n == 0xFEFF
  }

  function TrimStart(s: string): string {
    if s != "" && IsSpace(s[0]) then TrimStart(s[1..]) else s
  }

  function TrimEnd(s: string): string {
    if s != "" && IsSpace(s[|s|-1]) then TrimEnd(s[..|s|-1]) else s
  }

  function Trim(s: string): string { TrimEnd(TrimStart(s)) }

  const PREFIX := "data: "
  const DONE := "[DONE]"

  predicate IsData(line: string) { |line| >= 6 && line[..6] == PREFIX }

  function Payload(line: string): string
    requires IsData(line)
  {
    line[6..]
  }

  // What parsing a payload yields: nothing, an error object, or a chunk whose token and usage
  // may be missing.
  datatype Message = Malformed | Failure(message: string) | Chunk(token: string, usage: seq<nat>)

  // What the reader of the stream has shown so far: the reply, the errors, the last usage.
  datatype View = View(fullText: string, errors: seq<string>, usage: seq<nat>)

  const NOTHING_SHOWN := View("", [], [])

  function Show(v: View, data: string, parse: string -> Message): View {
    if data == DONE then v
    else match parse(data)
      case Malformed => v
      case Failure(message) => v.(errors := v.errors + [message])
      case Chunk(token, usage) =>
        v.(fullText := v.fullText + token, usage := if usage == [] then v.usage else usage)
  }

  // The trimmed payloads of the data lines, and the view they leave.
  function Received(lines: seq<string>): seq<string> {
    if lines == [] then []
    else
      var line := lines[|lines|-1];
      Received(lines[..|lines|-1]) + if IsData(line) then [Trim(Payload(line))] else []
  }

  function ShowAll(data: seq<string>, parse: string -> Message): View {
    if data == [] then NOTHING_SHOWN else Show(ShowAll(data[..|data|-1], parse), data[|data|-1], parse)
  }

  // What a message adds to the reply, and the error it shows.
  function TokenOf(m: Message): string { if m.Chunk? then m.token else "" }

  function ErrorOf(m: Message): string { if m.Failure? then m.message else "" }

  predicate IsFailure(m: Message) { m.Failure? }

  predicate HasUsage(m: Message) { m.Chunk? && m.usage != [] }

  // The messages of all payloads but sentinels, in order.
  function Messages(data: seq<string>, parse: string -> Message): seq<Message> {
    Map(parse, Filter((d: string) => d != "[DONE]", data))
  }

  // v shows the tokens of the messages one after the other, their errors, and the last usage
  // any of them has.
  ghost predicate Shows(v: View, messages: seq<Message>) {
    && v.fullText == Concat(Map(TokenOf, messages))
    && v.errors == Map(ErrorOf, Filter(IsFailure, messages))
    && (|| (v.usage == [] && forall i :: 0 <= i < |messages| ==> !HasUsage(messages[i]))
        || exists i :: 0 <= i < |messages| && HasUsage(messages[i]) && v.usage == messages[i].usage
                       && forall j :: i < j < |messages| ==> !HasUsage(messages[j]))
  }

  lemma {:induction false} ShowAllShows(data: seq<string>, parse: string -> Message)
    ensures Shows(ShowAll(data, parse), Messages(data, parse))
  {
    if data != [] {
      var front, d := data[..|data|-1], data[|data|-1];
      ShowAllShows(front, parse);
      if d != DONE {
        MapSnoc(parse, Filter((x: string) => x != "[DONE]", front), d);
        ShowsOneMore(ShowAll(front, parse), Messages(front, parse), d, parse);
      } else {
        assert Messages(data, parse) == Messages(front, parse);
      }
    }
  }

  lemma ShowsOneMore(v: View, messages: seq<Message>, d: string, parse: string -> Message)
    requires Shows(v, messages) && d != DONE
    ensures Shows(Show(v, d, parse), messages + [parse(d)])
  {
    var m := parse(d);
    var more := messages + [m];
    MapSnoc(TokenOf, messages, m);
    assert more[..|messages|] == messages;
    assert Map(TokenOf, more)[..|messages|] == Map(TokenOf, messages);
    assert v.fullText + "" == v.fullText;
    if m.Failure? {
      MapSnoc(ErrorOf, Filter(IsFailure, messages), m);
    } else {
      assert Filter(IsFailure, more) == Filter(IsFailure, messages);
    }
    if !HasUsage(m) && v.usage != [] {
      var i :| 0 <= i < |messages| && HasUsage(messages[i]) && v.usage == messages[i].usage
               && forall j :: i < j < |messages| ==> !HasUsage(messages[j]);
      assert more[i] == messages[i] && forall j :: i < j < |more| ==> !HasUsage(more[j]);
    }
    if HasUsage(m) { assert more[|messages|] == m; }
  }

  lemma {:induction false} ReceivedConcat(a: seq<string>, b: seq<string>)
    ensures Received(a + b) == Received(a) + Received(b)
  {
    if b == [] {
      assert a + b == a;
    } else {
      ReceivedConcat(a, b[..|b|-1]);
      assert (a + b)[..|a + b| - 1] == a + b[..|b|-1];
    }
  }

  method HandleLine(line: string, parse: string -> Message, v: View) returns (v': View)
    ensures v' == if IsData(line) then Show(v, Trim(Payload(line)), parse) else v
  {
    v' := v;
    if |line| < 6 || line[..6] != "data: " { return; }
    var data := Trim(line[6..]);
    if data == "[DONE]" { return; }
    match parse(data) {
      case Malformed =>
      case Failure(message) => v' := v'.(errors := v'.errors + [message]);
      case Chunk(token, usage) =>
        if token != "" { v' := v'.(fullText := v'.fullText + token); }
        if usage != [] { v' := v'.(usage := usage); }
    }
  }

  method HandleLines(lines: seq<string>, parse: string -> Message, v0: View, ghost before: seq<string>)
    returns (v: View)
    requires v0 == ShowAll(Received(before), parse)
    ensures v == ShowAll(Received(before + lines), parse)
  {
    v := v0;
    assert before + lines[..0] == before;
    for k := 0 to |lines|
      invariant v == ShowAll(Received(before + lines[..k]), parse)
    {
      v := HandleLine(lines[k], parse, v);
      ReceiveOne(before + lines[..k], lines[k], parse);
      assert before + lines[..k+1] == (before + lines[..k]) + [lines[k]];
    }
    assert lines[..|lines|] == lines;
  }

  // The read loop: whatever the cuts, it handles exactly the terminated lines of the whole
  // stream. A reply is added to the conversation only if it has any text.
  method HandleSse(parts: seq<string>, parse: string -> Message) returns (v: View, replied: bool)
    ensures v == ShowAll(Received(CompleteLines(Concat(parts))), parse)
    ensures Shows(v, Messages(Received(CompleteLines(Concat(parts))), parse))
    ensures replied <==> v.fullText != ""
  {
    v := NOTHING_SHOWN;
    ghost var lines: seq<string> := [];
    var buffer := "";
    for n := 0 to |parts|
      invariant lines == CompleteLines(Concat(parts[..n])) && buffer == Tail(Concat(parts[..n]))
      invariant v == ShowAll(Received(lines), parse)
    {
      assert parts[..n+1][..n] == parts[..n];
      SplitCarries(Concat(parts[..n]), parts[n]);
      var pieces := Split(buffer + parts[n]);
      buffer := pieces[|pieces|-1];
      pieces := pieces[..|pieces|-1];
      v := HandleLines(pieces, parse, v, lines);
      lines := lines + pieces;
    }
    assert parts[..|parts|] == parts;
    ShowAllShows(Received(lines), parse);
    replied := v.fullText != "";
  }

  lemma ReceiveOne(lines: seq<string>, line: string, parse: string -> Message)
    ensures ShowAll(Received(lines + [line]), parse)
         == if IsData(line) then Show(ShowAll(Received(lines), parse), Trim(Payload(line)), parse)
            else ShowAll(Received(lines), parse)
  {
    assert (lines + [line])[..|lines|] == lines;
    if IsData(line) {
      var r := Received(lines);
      assert (r + [Trim(Payload(line))])[..|r|] == r;
    } else {
      assert Received(lines + [line]) == Received(lines) + [] == Received(lines);
    }
  }

  // ---- The relay ----

  // bufio.ScanLines: lines without their break and without one trailing carriage return; an
  // unterminated last line counts unless it is empty.
  function DropReturn(line: string): string {
    if line != "" && line[|line|-1] == '\r' then line[..|line|-1] else line
  }

  function RawLines(s: string): seq<string> {
    CompleteLines(s) + if Tail(s) == "" then [] else [Tail(s)]
  }

  // Scanning ends before the first line the scanner's buffer cannot hold.
  function Scanned(raw: seq<string>, fits: string -> bool): seq<string> {
    if raw == [] || !fits(raw[0]) then [] else [DropReturn(raw[0])] + Scanned(raw[1..], fits)
  }

  const FORMAT_DONE := "data: [DONE]\n\n"

  // Fprint writes a byte slice as a bracketed list of numbers, so the sentinel is not sent as
  // text and its line breaks are not sent at all.
  function Printed(bytes: string): string { "[" + Numbers(bytes) + "]" }

  function Numbers(bytes: string): string {
    if bytes == "" then ""
    else if |bytes| == 1 then Decimal(bytes[0] as int)
    else Numbers(bytes[..|bytes|-1]) + " " + Decimal(bytes[|bytes|-1] as int)
  }

  lemma {:induction false} NumbersAreUnbroken(bytes: string)
    ensures Unbroken(Numbers(bytes))
  {
    if |bytes| == 1 {
      DecimalIsUnbroken(bytes[0] as int);
    } else if |bytes| > 1 {
      NumbersAreUnbroken(bytes[..|bytes|-1]);
      DecimalIsUnbroken(bytes[|bytes|-1] as int);
    }
  }

  // What the relay writes for the lines it scans.
  function Relayed(lines: seq<string>): string {
    if lines == [] then ""
    else if IsData(lines[0]) then
      if Payload(lines[0]) == DONE then Printed(FORMAT_DONE)
      else (PREFIX + Payload(lines[0]) + "\n\n") + Relayed(lines[1..])
    else if lines[0] == "" then "\n" + Relayed(lines[1..])
    else Relayed(lines[1..])
  }

  // The payloads of the data lines before the first sentinel.
  function PayloadsBeforeDone(lines: seq<string>): seq<string> {
    if lines == [] then []
    else if IsData(lines[0]) then
      if Payload(lines[0]) == DONE then [] else [Payload(lines[0])] + PayloadsBeforeDone(lines[1..])
    else PayloadsBeforeDone(lines[1..])
  }

  // What one line contributes, and whether it ends the relay.
  function RelayedLine(line: string): string {
    if IsData(line) then
      if Payload(line) == DONE then Printed(FORMAT_DONE) else PREFIX + Payload(line) + "\n\n"
    else if line == "" then "\n"
    else ""
  }

  predicate EndsRelay(line: string) { IsData(line) && Payload(line) == DONE }

  method RelayLine(line: string) returns (out: string, done: bool)
    ensures out == RelayedLine(line) && (done <==> EndsRelay(line))
  {
    if |line| >= 6 && line[..6] == "data: " {
      var data := line[6..];
      if data == "[DONE]" {
        return Printed(FORMAT_DONE), true;
      }
      return "data: " + data + "\n\n", false;
    } else if line == "" {
      return "\n", false;
    }
    return "", false;
  }

  lemma RelayedNext(lines: seq<string>, n: nat)
    requires n < |lines|
    ensures Relayed(lines[n..]) == RelayedLine(lines[n]) + if EndsRelay(lines[n]) then "" else Relayed(lines[n+1..])
  {
    assert lines[n..][1..] == lines[n+1..];
    assert Printed(FORMAT_DONE) + "" == Printed(FORMAT_DONE);
    assert "" + Relayed(lines[n+1..]) == Relayed(lines[n+1..]);
  }

  lemma Reassociate(a: string, b: string, c: string)
    ensures a + (b + c) == (a + b) + c && a + "" == a
  {
  }

  // done reports the return at the sentinel.
  method RelayLines(lines: seq<string>) returns (written: string, done: bool)
    ensures written == Relayed(lines)
    ensures done <==> exists i :: 0 <= i < |lines| && EndsRelay(lines[i])
  {
    written, done := "", false;
    Reassociate(Relayed(lines), "", "");
    for n := 0 to |lines|
      invariant written + Relayed(lines[n..]) == Relayed(lines)
      invariant !done && forall i :: 0 <= i < n ==> !EndsRelay(lines[i])
    {
      RelayedNext(lines, n);
      var out;
      out, done := RelayLine(lines[n]);
      Reassociate(written, out, if done then "" else Relayed(lines[n+1..]));
      written := written + out;
      if done {
        Reassociate(written, "", "");
        return;
      }
    }
    Reassociate(written, "", "");
  }

  // The lines that are handled: cancelAt is the number of lines after which the request context
  // is found to be done.
  function Handled(upstream: string, fits: string -> bool, cancelAt: nat): seq<string> {
    var lines := Scanned(RawLines(upstream), fits);
    if cancelAt < |lines| then lines[..cancelAt] else lines
  }

  // The relay fails when no sentinel ends it, and it is cancelled, or a line does not fit, or
  // reading the body ends in an error; the scanner still yields what was read before that.
  ghost predicate Fails(upstream: string, fits: string -> bool, cancelAt: nat, broken: bool) {
    && (forall i :: 0 <= i < |Handled(upstream, fits, cancelAt)| ==> !EndsRelay(Handled(upstream, fits, cancelAt)[i]))
    && (|Handled(upstream, fits, cancelAt)| < |RawLines(upstream)| || broken)
  }

  // Nothing is left out exactly when every line fits and the request is not cancelled meanwhile.
  lemma AllHandledIff(upstream: string, fits: string -> bool, cancelAt: nat)
    ensures |Handled(upstream, fits, cancelAt)| == |RawLines(upstream)|
       <==> && cancelAt >= |RawLines(upstream)|
            && forall i :: 0 <= i < |RawLines(upstream)| ==> fits(RawLines(upstream)[i])
  {
    AllScannedIff(RawLines(upstream), fits);
  }

  lemma {:induction false} AllScannedIff(raw: seq<string>, fits: string -> bool)
    ensures |Scanned(raw, fits)| <= |raw|
    ensures |Scanned(raw, fits)| == |raw| <==> forall i :: 0 <= i < |raw| ==> fits(raw[i])
  {
    if raw != [] {
      AllScannedIff(raw[1..], fits);
      assert forall i :: 0 < i < |raw| ==> raw[i] == raw[1..][i-1];
    }
  }

  method StreamResponse(upstream: string, fits: string -> bool, cancelAt: nat, broken: bool)
    returns (written: string, failed: bool)
    ensures written == Relayed(Handled(upstream, fits, cancelAt))
    ensures failed <==> Fails(upstream, fits, cancelAt, broken)
  {
    var raw := RawLines(upstream);
    var scanned := Scanned(raw, fits);
    AllScannedIff(raw, fits);
    var done;
    written, done := RelayLines(if cancelAt < |scanned| then scanned[..cancelAt] else scanned);
    failed := !done && (cancelAt < |scanned| || |scanned| < |raw| || broken);
  }

  // The text the handler sends: the relayed stream and, when the relay fails, one more event with
  // the marshalled error.
  ghost function Sent(upstream: string, fits: string -> bool, cancelAt: nat, broken: bool, error: string): string {
    Relayed(Handled(upstream, fits, cancelAt))
    + if Fails(upstream, fits, cancelAt, broken) then PREFIX + error + "\n\n" else ""
  }

  method SendStream(upstream: string, fits: string -> bool, cancelAt: nat, broken: bool, error: string)
    returns (sent: string)
    ensures sent == Sent(upstream, fits, cancelAt, broken, error)
  {
    var failed;
    sent, failed := StreamResponse(upstream, fits, cancelAt, broken);
    if failed {
      sent := sent + ("data: " + error + "\n\n");
    }
  }

  lemma DataBlock(data: string)
    requires Unbroken(data)
    ensures CompleteLines(PREFIX + data + "\n\n") == [PREFIX + data, ""] && Tail(PREFIX + data + "\n\n") == ""
  {
    TwoBreaks(PREFIX + data);
    assert PREFIX + data + "\n\n" == ((PREFIX + data) + "\n") + "\n";
  }

  lemma TwoBreaks(line: string)
    requires Unbroken(line)
    ensures CompleteLines((line + "\n") + "\n") == [line, ""] && Tail((line + "\n") + "\n") == ""
  {
    LineBlock(line);
    BlockLines(line + "\n", "\n");
    OneBreak();
  }

  lemma OneBreak()
    ensures CompleteLines("\n") == [""] && Tail("\n") == ""
  {
    SplitSnoc("", '\n');
    assert "" + "\n" == "\n";
  }

  // What the browser receives of the relayed text, in any chunking, are the upstream payloads
  // before the sentinel, in order, trimmed.
  lemma {:induction false} RelayRoundTrip(lines: seq<string>)
    requires forall i :: 0 <= i < |lines| ==> Unbroken(lines[i])
    ensures Received(CompleteLines(Relayed(lines))) == Map(Trim, PayloadsBeforeDone(lines))
  {
    if lines == [] {
      UnbrokenIsTail("");
    } else {
      var line, rest := lines[0], lines[1..];
      RelayRoundTrip(rest);
      if EndsRelay(line) {
        NumbersAreUnbroken(FORMAT_DONE);
        UnbrokenIsTail(Printed(FORMAT_DONE));
      } else if IsData(line) {
        RelayedData(Payload(line), Relayed(rest));
        MapCons(Trim, Payload(line), PayloadsBeforeDone(rest));
      } else if line == "" {
        RelayedBreak(Relayed(rest));
      }
    }
  }

  // So the browser never sees the upstream sentinel. It sees one if and only if some payload
  // before it reads so once trimmed, and is not the sentinel itself.
  lemma SentinelSeenIff(lines: seq<string>)
    requires forall i :: 0 <= i < |lines| ==> Unbroken(lines[i])
    ensures DONE in Received(CompleteLines(Relayed(lines)))
       <==> exists data :: data in PayloadsBeforeDone(lines) && data != DONE && Trim(data) == DONE
  {
    var payloads := PayloadsBeforeDone(lines);
    RelayRoundTrip(lines);
    NoSentinelBefore(lines);
    if DONE in Map(Trim, payloads) {
      var i :| 0 <= i < |payloads| && Map(Trim, payloads)[i] == DONE;
      assert payloads[i] in payloads;
    }
    if data :| data in payloads && Trim(data) == DONE {
      var i :| 0 <= i < |payloads| && payloads[i] == data;
      assert Map(Trim, payloads)[i] == DONE;
    }
  }

  lemma {:induction false} NoSentinelBefore(lines: seq<string>)
    ensures DONE !in PayloadsBeforeDone(lines)
  {
    if lines != [] { NoSentinelBefore(lines[1..]); }
  }

  // A stream of the sentinel alone shows nothing; with one more blank before it, it is seen.
  lemma SentinelIsLost()
    ensures Received(CompleteLines(Relayed([PREFIX + DONE]))) == []
    ensures Received(CompleteLines(Relayed([PREFIX + (" " + DONE)]))) == [DONE]
  {
    BlankIsTrimmed();
    OnePayload(DONE);
    OnePayload(" " + DONE);
  }

  lemma BlankIsTrimmed()
    ensures Trim(" " + DONE) == DONE && " " + DONE != DONE && Unbroken(" " + DONE) && Unbroken(DONE)
  {
    var s := " " + DONE;
    assert IsSpace(s[0]) && s[1..] == DONE;
    assert TrimStart(s) == TrimStart(DONE) == DONE;
    assert TrimEnd(DONE) == DONE;
    assert !IsSpace(DONE[0]) && !IsSpace(DONE[|DONE|-1]);
  }

  lemma OnePayload(data: string)
    requires Unbroken(data)
    ensures Received(CompleteLines(Relayed([PREFIX + data]))) == if data == DONE then [] else [Trim(data)]
  {
    var line := PREFIX + data;
    RelayRoundTrip([line]);
    assert line[..6] == PREFIX && line[6..] == data;
    assert PayloadsBeforeDone([line]) == if data == DONE then [] else [data] + PayloadsBeforeDone([]);
  }

  lemma RelayedData(data: string, rest: string)
    requires Unbroken(data)
    ensures Received(CompleteLines((PREFIX + data + "\n\n") + rest)) == [Trim(data)] + Received(CompleteLines(rest))
  {
    DataBlock(data);
    BlockLines(PREFIX + data + "\n\n", rest);
    ReceivedConcat([PREFIX + data, ""], CompleteLines(rest));
    ReceivedData(data);
  }

  lemma RelayedBreak(rest: string)
    ensures Received(CompleteLines("\n" + rest)) == Received(CompleteLines(rest))
  {
    OneBreak();
    BlockLines("\n", rest);
    ReceivedConcat([""], CompleteLines(rest));
    assert [""][..0] == [] && Received([""]) == [];
  }

  lemma ReceivedData(data: string)
    ensures Received([PREFIX + data, ""]) == [Trim(data)]
  {
    var line := PREFIX + data;
    assert line[..6] == PREFIX && line[6..] == data;
    assert [line, ""][..1] == [line] && [line][..0] == [];
    assert Received([line]) == [Trim(data)];
  }

  lemma {:induction false} ScannedAreUnbroken(raw: seq<string>, fits: string -> bool)
    requires forall i :: 0 <= i < |raw| ==> Unbroken(raw[i])
    ensures forall i :: 0 <= i < |Scanned(raw, fits)| ==> Unbroken(Scanned(raw, fits)[i])
  {
    if raw != [] && fits(raw[0]) {
      ScannedAreUnbroken(raw[1..], fits);
    }
  }

  // Without a sentinel, the relayed text ends with a line break.
  lemma {:induction false} RelayEndsLine(lines: seq<string>)
    requires forall i :: 0 <= i < |lines| ==> Unbroken(lines[i]) && !EndsRelay(lines[i])
    ensures Tail(Relayed(lines)) == ""
  {
    if lines == [] {
      UnbrokenIsTail("");
    } else {
      RelayEndsLine(lines[1..]);
      if IsData(lines[0]) {
        DataBlock(Payload(lines[0]));
        BlockLines(PREFIX + Payload(lines[0]) + "\n\n", Relayed(lines[1..]));
      } else if lines[0] == "" {
        OneBreak();
        BlockLines("\n", Relayed(lines[1..]));
      }
    }
  }

  lemma HandledAreUnbroken(upstream: string, fits: string -> bool, cancelAt: nat)
    ensures forall i :: 0 <= i < |Handled(upstream, fits, cancelAt)| ==> Unbroken(Handled(upstream, fits, cancelAt)[i])
  {
    LinesAreUnbroken(upstream);
    TailIsUnbroken(upstream);
    ScannedAreUnbroken(RawLines(upstream), fits);
  }

  // What the browser receives of all that is sent: the payloads before the sentinel, and the error.
  lemma SentIsReceived(upstream: string, fits: string -> bool, cancelAt: nat, broken: bool, error: string)
    requires Unbroken(error)
    ensures Received(CompleteLines(Sent(upstream, fits, cancelAt, broken, error)))
         == Map(Trim, PayloadsBeforeDone(Handled(upstream, fits, cancelAt)))
            + if Fails(upstream, fits, cancelAt, broken) then [Trim(error)] else []
  {
    var lines := Handled(upstream, fits, cancelAt);
    HandledAreUnbroken(upstream, fits, cancelAt);
    RelayRoundTrip(lines);
    if Fails(upstream, fits, cancelAt, broken) {
      RelayEndsLine(lines);
      ErrorFrame(Relayed(lines), error);
    } else {
      assert Relayed(lines) + "" == Relayed(lines);
    }
  }

  lemma ErrorFrame(relayed: string, error: string)
    requires Tail(relayed) == "" && Unbroken(error)
    ensures Received(CompleteLines(relayed + (PREFIX + error + "\n\n")))
              == Received(CompleteLines(relayed)) + [Trim(error)]
  {
    BlockLines(relayed, PREFIX + error + "\n\n");
    DataBlock(error);
    ReceivedConcat(CompleteLines(relayed), [PREFIX + error, ""]);
    ReceivedData(error);
  }

  // End to end: any upstream body, relayed until its end, the sentinel, a cancellation, a line
  // that does not fit or a read error, then cut into reads in any way, shows what the payloads of the handled
  // lines before the sentinel show, and then the error if the relay failed.
  lemma StreamReachesBrowser(upstream: string, fits: string -> bool, cancelAt: nat, broken: bool, error: string,
                             parts: seq<string>, parse: string -> Message)
    requires Unbroken(error) && Concat(parts) == Sent(upstream, fits, cancelAt, broken, error)
    ensures var shown := ShowAll(Map(Trim, PayloadsBeforeDone(Handled(upstream, fits, cancelAt))), parse);
            ShowAll(Received(CompleteLines(Concat(parts))), parse)
            == if Fails(upstream, fits, cancelAt, broken) then Show(shown, Trim(error), parse) else shown
    ensures Shows(ShowAll(Received(CompleteLines(Concat(parts))), parse),
                  Messages(Map(Trim, PayloadsBeforeDone(Handled(upstream, fits, cancelAt)))
                           + if Fails(upstream, fits, cancelAt, broken) then [Trim(error)] else [], parse))
  {
    var payloads := Map(Trim, PayloadsBeforeDone(Handled(upstream, fits, cancelAt)));
    ShowAllShows(Received(CompleteLines(Concat(parts))), parse);
    SentIsReceived(upstream, fits, cancelAt, broken, error);
    assert (payloads + [Trim(error)])[..|payloads|] == payloads;
    assert payloads + [] == payloads;
  }

  // ---- The functions on lines, by position ----

  predicate StartsData(line: string) { |line| >= 6 && line[..6] == "data: " }

  function AfterPrefix(line: string): string { if |line| >= 6 then line[6..] else "" }

  // Trimming takes away spaces at both ends, and all of them.
  lemma TrimMeans(s: string) returns (a: string, b: string)
    ensures s == a + Trim(s) + b
    ensures forall i :: 0 <= i < |a| ==> IsSpace(a[i])
    ensures forall i :: 0 <= i < |b| ==> IsSpace(b[i])
    ensures Trim(s) != "" ==> !IsSpace(Trim(s)[0]) && !IsSpace(Trim(s)[|Trim(s)|-1])
  {
    a := StartMeans(s);
    b := EndMeans(TrimStart(s));
    assert Trim(s) != "" ==> Trim(s)[0] == TrimStart(s)[0];
  }

  lemma {:induction false} StartMeans(s: string) returns (a: string)
    ensures s == a + TrimStart(s) && forall i :: 0 <= i < |a| ==> IsSpace(a[i])
    ensures TrimStart(s) != "" ==> !IsSpace(TrimStart(s)[0])
  {
    a := "";
    if s != "" && IsSpace(s[0]) {
      var rest := StartMeans(s[1..]);
      a := [s[0]] + rest;
    }
  }

  lemma {:induction false} EndMeans(s: string) returns (b: string)
    ensures s == TrimEnd(s) + b && forall i :: 0 <= i < |b| ==> IsSpace(b[i])
    ensures TrimEnd(s) != "" ==> !IsSpace(TrimEnd(s)[|TrimEnd(s)|-1])
  {
    b := "";
    if s != "" && IsSpace(s[|s|-1]) {
      var rest := EndMeans(s[..|s|-1]);
      b := rest + [s[|s|-1]];
    }
  }

  lemma {:induction false} ReceivedMeans(lines: seq<string>)
    ensures Received(lines) == Map((l: string) => Trim(AfterPrefix(l)), Filter(StartsData, lines))
  {
    if lines != [] {
      var front, l := lines[..|lines|-1], lines[|lines|-1];
      ReceivedMeans(front);
      FilterSnoc(StartsData, lines);
      if StartsData(l) {
        MapSnoc((x: string) => Trim(AfterPrefix(x)), Filter(StartsData, front), l);
      }
    }
  }

  // n is the position of the first sentinel, or the number of lines.
  ghost predicate FirstSentinel(lines: seq<string>, n: nat) {
    && n <= |lines| && (n < |lines| ==> lines[n] == "data: [DONE]")
    && forall i :: 0 <= i < n ==> lines[i] != "data: [DONE]"
  }

  lemma {:induction false} PayloadsMean(lines: seq<string>, n: nat)
    requires FirstSentinel(lines, n)
    ensures PayloadsBeforeDone(lines) == Map(AfterPrefix, Filter(StartsData, lines[..n]))
  {
    if lines != [] {
      var line, rest := lines[0], lines[1..];
      assert lines == [line] + rest;
      if n == 0 {
        SentinelReads(line);
      } else {
        PayloadsMean(rest, n - 1);
        PayloadsCons(line, rest);
        KeptCons(line, rest[..n-1]);
        assert lines[..n] == [line] + rest[..n-1];
      }
    }
  }

  lemma PayloadsCons(line: string, rest: seq<string>)
    requires line != "data: [DONE]"
    ensures PayloadsBeforeDone([line] + rest)
         == (if StartsData(line) then [AfterPrefix(line)] else []) + PayloadsBeforeDone(rest)
  {
    SentinelReads(line);
    assert ([line] + rest)[1..] == rest;
  }

  lemma KeptCons(line: string, rest: seq<string>)
    ensures Map(AfterPrefix, Filter(StartsData, [line] + rest))
         == (if StartsData(line) then [AfterPrefix(line)] else []) + Map(AfterPrefix, Filter(StartsData, rest))
  {
    FilterCons(StartsData, line, rest);
    MapCons(AfterPrefix, line, Filter(StartsData, rest));
  }

  lemma SentinelReads(line: string)
    ensures EndsRelay(line) <==> line == "data: [DONE]"
  {
    assert "data: [DONE]"[..6] == "data: " && "data: [DONE]"[6..] == "[DONE]";
    if EndsRelay(line) { assert line == line[..6] + line[6..]; }
  }

  // What the relay writes for a line that is no sentinel.
  function Forwarded(line: string): string {
    if StartsData(line) then line + "\n\n" else if line == "" then "\n" else ""
  }

  lemma {:induction false} RelayedMeans(lines: seq<string>, n: nat)
    requires FirstSentinel(lines, n)
    ensures Relayed(lines)
         == Concat(Map(Forwarded, lines[..n])) + if n < |lines| then Printed("data: [DONE]\n\n") else ""
  {
    if lines != [] {
      var line, rest := lines[0], lines[1..];
      assert lines == [line] + rest;
      if n == 0 {
        SentinelReads(line);
        assert "" + Printed(FORMAT_DONE) == Printed(FORMAT_DONE);
      } else {
        RelayedMeans(rest, n - 1);
        RelayedCons(line, rest);
        MapCons(Forwarded, line, rest[..n-1]);
        ConcatCons(Forwarded(line), Map(Forwarded, rest[..n-1]));
        assert lines[..n] == [line] + rest[..n-1];
        Reassociate(Forwarded(line), Concat(Map(Forwarded, rest[..n-1])),
                    if n < |lines| then Printed(FORMAT_DONE) else "");
      }
    }
  }

  lemma RelayedCons(line: string, rest: seq<string>)
    requires line != "data: [DONE]"
    ensures Relayed([line] + rest) == Forwarded(line) + Relayed(rest)
  {
    SentinelReads(line);
    assert ([line] + rest)[1..] == rest;
    if StartsData(line) { assert PREFIX + line[6..] == line; }
    assert "" + Relayed(rest) == Relayed(rest);
  }

  lemma {:induction false} ConcatCons(x: string, rest: seq<string>)
    ensures Concat([x] + rest) == x + Concat(rest)
  {
    if rest == [] {
      assert [x] + rest == [x] && [x][..0] == [];
      assert Concat([x]) == Concat([]) + x;
    } else {
      ConcatCons(x, rest[..|rest|-1]);
      assert ([x] + rest)[..|rest|] == [x] + rest[..|rest|-1];
    }
  }

  // Printed bytes are decimal numbers between brackets, one blank apart.
  lemma PrintedMeans(bytes: string, c: char)
    ensures Printed("") == "[]" && Printed([c]) == "[" + Decimal(c as int) + "]"
    ensures bytes != "" ==>
              Printed(bytes + [c]) == Printed(bytes)[..|Printed(bytes)|-1] + " " + Decimal(c as int) + "]"
  {
    assert (bytes + [c])[..|bytes|] == bytes;
    assert Printed(bytes)[..|Printed(bytes)|-1] == "[" + Numbers(bytes);
  }

  // The lines of a body are what its breaks separate; a break at the end opens no further line.
  lemma RawLinesMean(s: string)
    ensures Join(RawLines(s) + if s == "" || s[|s|-1] == '\n' then [""] else []) == s
    ensures forall i :: 0 <= i < |RawLines(s)| ==> Unbroken(RawLines(s)[i])
  {
    JoinSplit(s);
    LinesAreUnbroken(s);
    EmptyTail(s);
    assert Split(s) == CompleteLines(s) + [Tail(s)];
    assert RawLines(s) + (if Tail(s) == "" then [""] else []) == Split(s);
  }

  lemma EmptyTail(s: string)
    ensures Tail(s) == "" <==> s == "" || s[|s|-1] == '\n'
  {
    if s != "" {
      SplitSnoc(s[..|s|-1], s[|s|-1]);
      assert s == s[..|s|-1] + [s[|s|-1]];
    } else {
      UnbrokenIsTail("");
    }
  }

  // Scanning yields the lines before the first that does not fit, less a carriage return each.
  lemma {:induction false} ScannedMeans(raw: seq<string>, fits: string -> bool, n: nat)
    requires n <= |raw| && (n < |raw| ==> !fits(raw[n])) && forall i :: 0 <= i < n ==> fits(raw[i])
    ensures Scanned(raw, fits)
         == Map((l: string) => if l != "" && l[|l|-1] == '\r' then l[..|l|-1] else l, raw[..n])
  {
    if n > 0 {
      ScannedMeans(raw[1..], fits, n - 1);
      assert raw[..n] == [raw[0]] + raw[1..][..n-1];
    }
  }
}
