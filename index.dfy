/** The application in mqtt-restful/src/index.ts, as far as it is modelled: the screen
    command format, the clock and date strings shown on the screen, and the two HTTP
    handlers that serve a topic's cached value (GET) and publish a request body (POST) on
    the routes `MqttPattern`, wired together as the program does at start-up. */
module Index {
  import opened Wrappers
  import opened Strings
  import RxHttp
  import RxMqtt

  /** `SCREEN_MAX_LINE_LEN`: the width of one line of the screen. */
  const ScreenMaxLineLen: nat := 22

  /** The message field of a screen command, `message.padEnd(22, " ").slice(0, 22)`: a
      short message keeps its text and is filled up with spaces, a long one is cut. */
  function ScreenLine(message: string): (line: string)
    ensures |line| == ScreenMaxLineLen
    ensures |message| <= ScreenMaxLineLen ==> line == message + Repeat(' ', ScreenMaxLineLen - |message|)
    ensures |message| >= ScreenMaxLineLen ==> line == message[..ScreenMaxLineLen]
  {
    SliceTo(PadEnd(message, ScreenMaxLineLen, ' '), ScreenMaxLineLen)
  }

  /** `screenCommand(size, cursorX, cursorY, message)`. */
  function ScreenCommand(size: int, cursorX: int, cursorY: int, message: string): (command: string)
    ensures var a := IntToDecimal(size);
      && |command| == |a| + |IntToDecimal(cursorX)| + |IntToDecimal(cursorY)| + 3 + ScreenMaxLineLen
      && command[..|a|] == a && command[|a|] == ' '
    ensures command[|command| - ScreenMaxLineLen - 1] == ' '
    ensures command[|command| - ScreenMaxLineLen..] == ScreenLine(message)
  {
    IntToDecimal(size) + " " + IntToDecimal(cursorX) + " " + IntToDecimal(cursorY) + " " + ScreenLine(message)
  }

  datatype ScreenFields = ScreenFields(size: int, cursorX: int, cursorY: int, line: string)

  /** Reads a screen command: three numerals, each followed by one space, then the line
      (which may itself hold spaces). */
  function ParseScreenCommand(command: string): Option<ScreenFields> {
    var parts := SplitOn(command, ' ');
    if |parts| >= 4 && IsNumeral(parts[0]) && IsNumeral(parts[1]) && IsNumeral(parts[2]) then
      Some(ScreenFields(ParseInt(parts[0]), ParseInt(parts[1]), ParseInt(parts[2]), JoinWith(parts[3..], ' ')))
    else
      None
  }

  /** A screen command is the size, the cursor position and the 22-character line, separated
      by single spaces: reading it back recovers each of them. */
  lemma ScreenCommandRoundTrip(size: int, cursorX: int, cursorY: int, message: string)
    ensures ParseScreenCommand(ScreenCommand(size, cursorX, cursorY, message))
      == Some(ScreenFields(size, cursorX, cursorY, ScreenLine(message)))
  {
    var a, b, c, line := IntToDecimal(size), IntToDecimal(cursorX), IntToDecimal(cursorY), ScreenLine(message);
    DecimalAvoids(size, ' ');
    DecimalAvoids(cursorX, ' ');
    DecimalAvoids(cursorY, ' ');
    var parts := SplitOn(ScreenCommand(size, cursorX, cursorY, message), ' ');
    SplitThreeThenRest(a, b, c, ' ', line);
    assert parts[3..] == SplitOn(line, ' ');
    JoinSplit(line, ' ');
    ParseIntToDecimal(size);
    ParseIntToDecimal(cursorX);
    ParseIntToDecimal(cursorY);
  }

  /** One component of the clock, `${n}`.padStart(2, "0"). */
  function ClockField(n: nat): (field: string)
    ensures |field| >= 2 && AllDigits(field)
  {
    var d := NatToDecimal(n);
    var field := PadStart(d, 2, '0');
    assert forall i :: 0 <= i < |field| ==> IsDigit(field[i]) by {
      forall i | 0 <= i < |field| ensures IsDigit(field[i]) {
        if i >= |field| - |d| {
          assert field[i] == field[|field| - |d|..][i - (|field| - |d|)];
        }
      }
    }
    field
  }

  /** A component below 10 gets one leading zero; the field is two characters wide exactly
      when the component is below 100, and a larger one is printed whole. */
  lemma ClockFieldWidth(n: nat)
    ensures n < 10 ==> ClockField(n) == "0" + NatToDecimal(n)
    ensures n >= 10 ==> ClockField(n) == NatToDecimal(n)
    ensures |ClockField(n)| == 2 <==> n < 100
  {
    DecimalLength(n);
  }

  /** A clock field is a numeral whose value is the component. */
  lemma ParseClockField(n: nat)
    ensures AllDigits(ClockField(n)) && ':' !in ClockField(n)
    ensures ParseDecimal(ClockField(n)) == n
  {
    var d := NatToDecimal(n);
    ParseNatToDecimal(n);
    if |d| < 2 {
      ParseLeadingZeros(2 - |d|, d);
    }
    DecimalAvoids(n, ':');
    assert ':' !in Repeat('0', 2);
  }

  /** The time shown on the screen, `HH:MM:SS`. */
  function TimeString(hours: nat, minutes: nat, seconds: nat): (time: string)
    ensures |time| >= 8
    ensures hours < 100 ==> time[2] == ':'
    ensures hours < 100 && minutes < 100 ==> time[5] == ':'
  {
    ClockFieldWidth(hours);
    ClockFieldWidth(minutes);
    ClockField(hours) + ":" + ClockField(minutes) + ":" + ClockField(seconds)
  }

  function ParseTime(s: string): Option<(nat, nat, nat)> {
    var parts := SplitOn(s, ':');
    if |parts| == 3 && AllDigits(parts[0]) && AllDigits(parts[1]) && AllDigits(parts[2]) then
      Some((ParseDecimal(parts[0]), ParseDecimal(parts[1]), ParseDecimal(parts[2])))
    else
      None
  }

  /** The time string is three zero-padded fields separated by colons: reading it back gives
      the hours, minutes and seconds, and for components below 100 it is eight characters. */
  lemma TimeRoundTrip(hours: nat, minutes: nat, seconds: nat)
    ensures ParseTime(TimeString(hours, minutes, seconds)) == Some((hours, minutes, seconds))
    ensures hours < 100 && minutes < 100 && seconds < 100 ==> |TimeString(hours, minutes, seconds)| == 8
  {
    var h, m, s := ClockField(hours), ClockField(minutes), ClockField(seconds);
    ParseClockField(hours);
    ParseClockField(minutes);
    ParseClockField(seconds);
    SplitThree(h, m, s, ':');
    ClockFieldWidth(hours);
    ClockFieldWidth(minutes);
    ClockFieldWidth(seconds);
  }

  /** The date shown on the screen, `${year}-${month + 1}-${day}` with the month counted
      from 0 as `getMonth` does, and no padding. */
  function DateString(year: int, monthIndex: int, day: int): (date: string)
    ensures var y := IntToDecimal(year); |date| >= |y| + 4 && date[..|y|] == y && date[|y|] == '-'
  {
    IntToDecimal(year) + "-" + IntToDecimal(monthIndex + 1) + "-" + IntToDecimal(day)
  }

  function ParseDate(s: string): Option<(int, int, int)> {
    var parts := SplitOn(s, '-');
    if |parts| == 3 && IsNumeral(parts[0]) && IsNumeral(parts[1]) && IsNumeral(parts[2]) then
      Some((ParseInt(parts[0]), ParseInt(parts[1]) - 1, ParseInt(parts[2])))
    else
      None
  }

  /** For a date of the common era, reading the date string back gives year, month index and
      day, and the month field is the plain numeral of `month + 1`, without padding. */
  lemma DateRoundTrip(year: int, monthIndex: int, day: int)
    requires year >= 0 && monthIndex >= 0 && day >= 0
    ensures ParseDate(DateString(year, monthIndex, day)) == Some((year, monthIndex, day))
    ensures SplitOn(DateString(year, monthIndex, day), '-')[1] == NatToDecimal(monthIndex + 1)
  {
    var y, m, d := IntToDecimal(year), IntToDecimal(monthIndex + 1), IntToDecimal(day);
    DecimalAvoids(year, '-');
    DecimalAvoids(monthIndex + 1, '-');
    DecimalAvoids(day, '-');
    SplitThree(y, m, d, '-');
    ParseIntToDecimal(year);
    ParseIntToDecimal(monthIndex + 1);
    ParseIntToDecimal(day);
  }

  /** The MQTT topic a request names, `/${t.urlParams._}`; a missing `_` prints as
      `undefined`. */
  function TopicOf(urlParams: RxHttp.Params): (topic: string)
    ensures |topic| >= 1 && topic[0] == '/'
    ensures "_" in urlParams ==> topic[1..] == urlParams["_"]
    ensures "_" !in urlParams ==> topic[1..] == "undefined"
  {
    "/" + (if "_" in urlParams then urlParams["_"] else "undefined")
  }

  function OptionJson(v: Option<string>): RxHttp.JsonValue {
    match v
    case Some(s) => RxHttp.Str(s)
    case None => RxHttp.Undefined
  }

  /** The answer of both handlers, `{ topic, <field> }`: the GET handler's field is `cache`,
      the POST handler's `published`. */
  function TopicReply(topic: string, field: string, v: Option<string>): (reply: RxHttp.JsonValue)
    ensures reply.Obj? && |reply.members| == 2
    ensures reply.members[0] == ("topic", RxHttp.Str(topic)) && reply.members[1].0 == field
    ensures reply.members[1].1 == RxHttp.Undefined <==> v.None?
    ensures v.Some? ==> reply.members[1].1 == RxHttp.Str(v.value)
  {
    RxHttp.Obj([("topic", RxHttp.Str(topic)), (field, OptionJson(v))])
  }

  /** The handler of GET on `MqttPattern`: answers with the topic and its cached value. */
  method HandleCache(mqtt: RxMqtt.RxMqtt, t: RxHttp.Transaction)
    requires t.pending.Valid() && t.urlParams.Some?
    modifies t.pending
    ensures t.pending.Valid() && t.pending.replied
    ensures t.pending.unmatchedCount == old(t.pending.unmatchedCount) && t.pending.consumed == old(t.pending.consumed)
    ensures var topic := TopicOf(t.urlParams.value);
      t.pending.writes ==
        if old(t.pending.replied) then old(t.pending.writes)
        else RxHttp.ReplyOps(200, RxHttp.ApplicationJson, RxHttp.Json(TopicReply(topic, "cache", mqtt.SubCache(topic))))
  {
    var topic := TopicOf(t.urlParams.value);
    RxHttp.OkJson(t, TopicReply(topic, "cache", mqtt.SubCache(topic)));
  }

  /** The handler of POST on `MqttPattern`: answers at once with the first value `sub$` gives for
      the topic — its value before the publish — and publishes the body on the topic once
      the body has ended. */
  method HandlePublish(mqtt: RxMqtt.RxMqtt, t: RxHttp.Transaction)
    requires t.pending.Valid() && t.urlParams.Some? && t.postData != RxHttp.Absent
    modifies t.pending, mqtt
    ensures t.pending.Valid() && t.pending.replied
    ensures t.pending.unmatchedCount == old(t.pending.unmatchedCount) && t.pending.consumed == old(t.pending.consumed)
    ensures var topic := TopicOf(t.urlParams.value);
      t.pending.writes ==
        if old(t.pending.replied) then old(t.pending.writes)
        else RxHttp.ReplyOps(200, RxHttp.ApplicationJson, RxHttp.Json(TopicReply(topic, "published", mqtt.SubCache(topic))))
    ensures mqtt.topic2Sub == old(mqtt.topic2Sub)
    ensures mqtt.commands == old(mqtt.commands) +
      if t.postData.Buffered? then [RxMqtt.Publish(TopicOf(t.urlParams.value), t.postData.text)] else []
  {
    var topic := TopicOf(t.urlParams.value);
    RxHttp.OkJson(t, TopicReply(topic, "published", RxMqtt.First(mqtt.Sub(topic))));
    if t.postData.Buffered? {
      mqtt.Pub(topic, t.postData.text);
    }
  }

  /** `TOPICS`: the topics subscribed at start-up. */
  const Topics: seq<string> := [
    "/light/on", "/light/off", "/light/toggle", "/light/status",
    "/sensor/temp", "/sensor/humi", "/sensor/motion", "/cc3200/ScreenControl"]

  /** The URL pattern of both routes: `/mqtt/` followed by a wildcard, which `url-pattern`
      binds to the parameter `_`. */
  const MqttPattern := "/mqtt/" + "*"

  const RestfulCacheRoute := RxHttp.Route("GET", MqttPattern)
  const RestfulPubRoute := RxHttp.Route("POST", MqttPattern)

  /** The running program: the MQTT bridge subscribed to `Topics`, and the HTTP engine with
      the GET and POST routes on `MqttPattern`, registered in that order. */
  class App {
    const mqtt: RxMqtt.RxMqtt
    const http: RxHttp.RxHttp

    ghost predicate Valid()
      reads this, http
    {
      http.Valid() && http.routes == [RestfulCacheRoute, RestfulPubRoute]
    }

    constructor (urlMatch: (string, string) -> Option<RxHttp.Params>)
      ensures Valid() && fresh(mqtt) && fresh(http) && http.urlMatch == urlMatch
      ensures |mqtt.commands| == |Topics|
      ensures forall i :: 0 <= i < |Topics| ==> mqtt.commands[i] == RxMqtt.ClientCommand.Subscribe(Topics[i])
      ensures forall t :: t in mqtt.topic2Sub <==> t in Topics
      ensures forall t :: t in mqtt.topic2Sub ==> mqtt.topic2Sub[t] == None
    {
      var m := new RxMqtt.RxMqtt();
      for i := 0 to |Topics|
        invariant |m.commands| == i
        invariant forall j :: 0 <= j < i ==> m.commands[j] == RxMqtt.ClientCommand.Subscribe(Topics[j])
        invariant forall t :: t in m.topic2Sub <==> t in Topics[..i]
        invariant forall t :: t in m.topic2Sub ==> m.topic2Sub[t] == None
      {
        m.Subscribe(Topics[i]);
        assert Topics[..i + 1] == Topics[..i] + [Topics[i]];
      }
      assert Topics[..|Topics|] == Topics;
      var h := new RxHttp.RxHttp(urlMatch);
      var cache := h.TransactionStream(MqttPattern);
      var pub := h.TransactionStream(MqttPattern, "POST");
      assert cache == RestfulCacheRoute && pub == RestfulPubRoute;
      mqtt := m;
      http := h;
    }

    /** One HTTP request, from arrival to the handler's answer. A GET or POST on a URL the
        pattern `MqttPattern` matches reaches its handler; anything else gets the 404 fallback.
        The topic map is not changed; a POST publishes its body if the body ends. */
    method Serve(req: RxHttp.Request) returns (p: RxHttp.PendingRequest)
      requires Valid()
      modifies mqtt
      ensures Valid() && fresh(p) && p.req == req && p.Valid() && p.replied
      ensures mqtt.topic2Sub == old(mqtt.topic2Sub)
      ensures p.unmatchedCount == RxHttp.CountUnmatched(http.urlMatch, http.routes, req)
      ensures p.consumed == RxHttp.FirstMatch(http.urlMatch, http.routes, req).Some?
      ensures var params := http.urlMatch(MqttPattern, req.url);
        if req.verb == "GET" && params.Some? then
          var topic := TopicOf(params.value);
          && p.writes == RxHttp.ReplyOps(200, RxHttp.ApplicationJson, RxHttp.Json(TopicReply(topic, "cache", mqtt.SubCache(topic))))
          && mqtt.commands == old(mqtt.commands)
        else if req.verb == "POST" && params.Some? then
          var topic := TopicOf(params.value);
          var body := RxHttp.ReadPostData(req.events);
          && p.writes == RxHttp.ReplyOps(200, RxHttp.ApplicationJson, RxHttp.Json(TopicReply(topic, "published", mqtt.SubCache(topic))))
          && mqtt.commands == old(mqtt.commands) + if body.Buffered? then [RxMqtt.Publish(topic, body.text)] else []
        else
          && p.writes == RxHttp.NotFoundOps()
          && mqtt.commands == old(mqtt.commands)
    {
      var delivered, notFound;
      p, delivered, notFound := http.Receive(req);
      if |delivered| == 1 {
        var t := delivered[0];
        if t.route == RestfulCacheRoute {
          HandleCache(mqtt, t);
        } else {
          HandlePublish(mqtt, t);
        }
      }
    }
  }
}
