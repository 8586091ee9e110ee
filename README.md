# mqtt-restful in Dafny

mqtt-restful bridges HTTP and MQTT. A GET on `/mqtt/<topic>` answers with the last value
seen on the MQTT topic `/<topic>`. A POST on the same URL publishes the request body on
that topic. This project models four parts of the program and proves properties of them:

- the HTTP dispatch engine `RxHttp` (`rx_http.dfy`);
- the MQTT topic cache `RxMqtt` (`rx_mqtt.dfy`);
- the memo cell `lazy` (`util.dfy`);
- the screen and clock formats and the two REST handlers of the application (`index.dfy`).

`strings.dfy` holds JavaScript's integer printing, `padStart`, `padEnd` and `slice`. It
also holds the inverses the round-trip lemmas read the formats back with: numeral
parsing, and splitting on and joining with a separator.

Subject delivery is synchronous, so dispatch is a loop over the routes. Each route has
two observers on the request subject:

- its rejection counter, which subscribes when the route is registered;
- its matcher, which subscribes when the route's stream is first subscribed.

The application subscribes each stream right after registering it. So in the application
both observers run in registration order, and `RxHttp.RxHttp.Receive` loops over the
registry in insertion order. The loop keeps the source's per-request state:

- `unmatchedCount` counts the routes that rejected the request;
- `consumed` is set by the first matching route, and later matching routes skip the request;
- `replied` is the write-once guard on the response.

The response is a log of `writeHead`, `write` and `end` calls. The topic cache maps each
subscribed topic to its subject's current value, with `undefined` as `None`. The calls
made on the MQTT client are a log of commands.

## Model

| member | source | states |
|---|---|---|
| RxHttp.RouteToString | mqtt-restful/src/rxHttp.ts:50 | the key is the method, one space, then the pattern, so both parts can be read off it |
| RxHttp.RouteMatches | mqtt-restful/src/rxHttp.ts:55 | a route claims only requests with its own method whose URL its pattern matches |
| RxHttp.RxHttp.ToTransaction | mqtt-restful/src/rxHttp.ts:76-84 | the transaction carries the request record, the route, the URL and the pattern's parameters; its body is this request's body read as `readPostData` does exactly when the route's method is POST, and absent otherwise |
| RxHttp.RxHttp.PostTransactionBody | mqtt-restful/src/rxHttp.ts:80 | a POST transaction's body is the request's data chunks before the end event, joined in order |
| RxHttp.Concat | mqtt-restful/src/rxHttp.ts:61 | a single chunk is the body itself; the body starts with the first chunk; empty chunks give an empty body |
| Index.ScreenCommand | mqtt-restful/src/index.ts:28-29 | the command starts with the size numeral and a space, and ends with a space and the 22-character line; its length is the three numerals, three spaces and 22 |
| Index.ClockField | mqtt-restful/src/index.ts:74 | a clock field is all digits and at least two characters long |
| Index.TimeString | mqtt-restful/src/index.ts:73-75 | the time is at least eight characters, with colons at positions 2 and 5 when hours and minutes are below 100 |
| Index.DateString | mqtt-restful/src/index.ts:66 | the date starts with the year numeral followed by `-` |
| Index.TopicReply | mqtt-restful/src/index.ts:97 | a handler's answer is the object `{ topic, <field> }` in that order, with field `cache` here and `published` at index.ts:108; the field is `undefined` exactly when there is no value, and the value otherwise |
| Strings.IntToDecimal | mqtt-restful/src/index.ts:29 | `${n}` is a numeral, and it starts with `-` exactly when `n` is negative |
| Strings.PadStart | mqtt-restful/src/index.ts:74 | `padStart` gives the longer of the string's length and the target length; the string ends the result and the fill character comes before it |
| Strings.PadEnd | mqtt-restful/src/index.ts:29 | `padEnd` gives the longer of the string's length and the target length; the string starts the result and the fill character comes after it |
| Strings.SliceTo | mqtt-restful/src/index.ts:29 | `slice(0, n)` is the prefix of length `n`, or the whole string when it is shorter |
| RxHttp.RouteKeyInjective | mqtt-restful/src/rxHttp.ts:50-51 | the key `"<method> <pattern>"` identifies the route: two keys are equal exactly when the routes are equal, provided neither method contains a space |
| RxHttp.Lookup | mqtt-restful/src/rxHttp.ts:52 | the registry lookup either finds a position whose route has the key, or no route in the registry has that key |
| RxHttp.RxHttp.constructor | mqtt-restful/src/rxHttp.ts:47 | the registry starts empty |
| RxHttp.RxHttp.TransactionStream | mqtt-restful/src/rxHttp.ts:49-99 | if the key is already registered, the route stored under it is returned and the registry is unchanged; otherwise the route is appended; the method defaults to GET; no key is ever registered twice |
| RxHttp.FirstMatch | mqtt-restful/src/rxHttp.ts:91-94 | the route that claims a request matches both method and URL, and no earlier-registered route matches; there is no such route exactly when no route matches |
| RxHttp.CountUnmatched | mqtt-restful/src/rxHttp.ts:85-87 | the number of rejecting routes never exceeds the number of routes |
| RxHttp.AllRejectIffNoMatch | mqtt-restful/src/rxHttp.ts:85-88 | the rejection count equals the number of routes exactly when no route matches the request |
| RxHttp.RxHttp.Receive | mqtt-restful/src/rxHttp.ts:85-113 | a request matched by some route is consumed once and delivered to the first matching route only, with nothing written; an unmatched request gets exactly the 404 `text/plain` "not found" reply once, or no reply at all when no route is registered; `unmatchedCount` ends as the number of rejecting routes |
| RxHttp.PendingRequest.constructor | mqtt-restful/src/rxHttp.ts:102 | a new request record starts with zero rejections, not consumed, not replied, and nothing written |
| RxHttp.PendingRequest.WriteReply | mqtt-restful/src/rxHttp.ts:63-70 | the first reply writes status and headers, the message, then ends the response; every later reply writes nothing; the other fields are unchanged |
| RxHttp.OkJson | mqtt-restful/src/rxHttp.ts:81 | replies 200 with `application/json` and the serialised value, unless a reply was already made |
| RxHttp.OkText | mqtt-restful/src/rxHttp.ts:82 | replies 200 with `text/plain` and the string verbatim, unless a reply was already made |
| RxHttp.Reply | mqtt-restful/src/rxHttp.ts:83 | replies with the caller's status, headers and message, unless a reply was already made |
| RxHttp.NotFoundOps | mqtt-restful/src/rxHttp.ts:107-111 | the fallback reply is status 404, `Content-Type: text/plain`, body `not found` |
| RxHttp.ReadPostData | mqtt-restful/src/rxHttp.ts:56-62 | the body of a POST is always present: either buffered text or a body that never ends |
| RxHttp.PostDataIsChunksBeforeEnd | mqtt-restful/src/rxHttp.ts:57-61 | the body is the data chunks before the end event, joined in order; events after the end are ignored |
| RxHttp.PostDataWithoutEnd | mqtt-restful/src/rxHttp.ts:58-61 | a request whose end event never comes yields no body value |
| RxHttp.ConcatAppend | mqtt-restful/src/rxHttp.ts:61 | joining the chunks does not depend on where the chunk boundaries fall |
| RxMqtt.Step | mqtt-restful/src/rxMqtt.ts:27-42 | a subscription installs a fresh `undefined` entry, replacing any earlier one; an unsubscription removes the entry; a message overwrites the value of a subscribed topic and is lost for any other topic; no other topic changes |
| RxMqtt.CacheHoldsUntilNewer | mqtt-restful/src/rxMqtt.ts:28-32 | after a message on a subscribed topic, its cached value stays that message while the only events are on other topics |
| RxMqtt.RxMqtt.constructor | mqtt-restful/src/rxMqtt.ts:12 | no topic has an entry and no client call has been made |
| RxMqtt.RxMqtt.Sub | mqtt-restful/src/rxMqtt.ts:14 | a topic with an entry gives its subject; any other topic gives a single `undefined`; in both cases the first value is the cached value |
| RxMqtt.RxMqtt.SubCache | mqtt-restful/src/rxMqtt.ts:15 | the single value is the topic's current value, or `undefined` when the topic has no entry |
| RxMqtt.RxMqtt.Pub | mqtt-restful/src/rxMqtt.ts:16-23 | each message makes exactly one publish call on the client, and the cache is unchanged |
| RxMqtt.RxMqtt.Subscribe | mqtt-restful/src/rxMqtt.ts:25-33 | one subscribe call on the client, and a fresh entry holding `undefined` |
| RxMqtt.RxMqtt.Unsubscribe | mqtt-restful/src/rxMqtt.ts:39-45 | nothing happens for a topic without an entry; otherwise the entry is removed and one unsubscribe call is made on the client |
| RxMqtt.RxMqtt.OnMessage | mqtt-restful/src/rxMqtt.ts:28-32 | an incoming message becomes the current value of its topic's subject, if the topic has one; no client call is made |
| Util.Lazy.constructor | mqtt-restful/src/util.ts:9-10 | the cell starts empty and `init` has not run |
| Util.Lazy.Get | mqtt-restful/src/util.ts:11-14 | `init` runs exactly when the kept value is falsy, and its result is kept; a truthy kept value is returned unchanged without running `init`; the result is the kept value |
| Index.ScreenLine | mqtt-restful/src/index.ts:29 | the message field is exactly 22 characters: a short message is padded with spaces, and a long one is cut to its first 22 characters |
| Index.ScreenCommandRoundTrip | mqtt-restful/src/index.ts:28-29 | the screen command reads back into its size, cursor x, cursor y and 22-character line |
| Strings.ParseIntToDecimal | mqtt-restful/src/index.ts:29 | the printed numeral of an integer reads back as the integer; this is `${n}` for integers below 10^21 in magnitude |
| Index.ClockFieldWidth | mqtt-restful/src/index.ts:74 | a component below 10 gets one leading zero and a larger one is printed whole; the field is two characters exactly when the component is below 100 |
| Index.ParseClockField | mqtt-restful/src/index.ts:74 | a zero-padded clock field reads back as its number |
| Index.TimeRoundTrip | mqtt-restful/src/index.ts:73-75 | `HH:MM:SS` reads back as hours, minutes and seconds, and is eight characters when each is below 100 |
| Index.DateRoundTrip | mqtt-restful/src/index.ts:66 | the date string reads back as year, month and day; its month field is the month index plus one |
| Index.TopicOf | mqtt-restful/src/index.ts:94 | the topic is `/` followed by the URL's wildcard part, or `/undefined` when the wildcard part is missing |
| Index.HandleCache | mqtt-restful/src/index.ts:93-100 | the GET handler replies 200 JSON `{ topic, cache }` with the topic's current cached value; the request's `consumed` flag and rejection count are unchanged |
| Index.HandlePublish | mqtt-restful/src/index.ts:103-111 | the POST handler replies 200 JSON `{ topic, published }` with the topic's value before the publish; it publishes the body once if the body ends; the cache, the request's `consumed` flag and its rejection count are unchanged |
| Index.App.constructor | mqtt-restful/src/index.ts:14-20 | every topic in `TOPICS` is subscribed in order with an `undefined` value; the GET and POST routes on `/mqtt/*` are registered in that order, as at index.ts:92 and index.ts:102 |
| Index.App.Serve | mqtt-restful/src/index.ts:92-111 | a GET or POST whose URL matches `/mqtt/*` gets the handler's reply; any other request gets the 404 fallback; only a POST with a complete body publishes; the request is consumed exactly when some route matches, and its rejection count is the number of rejecting routes |

## Left out

- The Node HTTP server (`createServer`, `listen`, the port) and `url.parse` are left out. A request is its method, URL and sequence of body events, and a response is the log of writes made to it.
- `url-pattern` matching is a parameter of the engine (`urlMatch`). Its wildcard semantics are not modelled.
- `JSON.stringify` is not modelled. The JSON value is recorded in the write log, with `undefined` kept as its own value.
- rxjs scheduling is not modelled. Delivery is synchronous and in subscription order, so dispatch is a loop. Every route stream is assumed to have a subscriber, as the application's two routes do. A stream with no subscriber would leave its requests neither consumed nor answered.
- RxHttp.RxHttp.Receive: assumes that each route's stream is first subscribed before the next route is registered, as the application does. The source lets a route's matcher subscribe later than its registration. The first matching route in order of first subscription then wins, and the model does not capture that order.
- A route registered by a handler while a request is being dispatched is not modelled. Such a handler runs inside the dispatch of a request that is already consumed, so that request's outcome is unchanged.
- A route's handler runs inside the dispatch loop, at that route's turn. The model runs it after the loop. Later routes change nothing visible on a consumed request, so the outcome is the same.
- The fallback transaction is built from the last registered route, so a last POST route would also read the body. The fallback never uses the body, and this has no visible effect.
- The `error` and `complete` callbacks of the reply and MQTT observers only log, so they are not modelled. Errors thrown inside handlers are not modelled either.
- Console logging and `logPackets` are left out.
- The MQTT network client is left out: connecting, the `connect$` stream, and the `"0"` published on connect. Payload `Buffer`s are taken to be strings already. An incoming message is the method `RxMqtt.RxMqtt.OnMessage`.
- `fromCallback` is left out; its only role is to turn callbacks into streams.
- A subscription or unsubscription leaves the old subject, with its message pipeline and its readers, alive in the source. The model keeps only the map's current values, so readers that still hold a replaced or completed subject are not modelled.
- The source's `topic2Sub$` is a plain object, so a key inherited from `Object.prototype` (such as `constructor`) counts as present there. The model treats such keys as absent. The application's topics all begin with `/`, which no inherited key does.
- Util.Lazy.Get: `init` is treated as a pure function of no arguments, so a side effect or a changing result is not modelled. JavaScript truthiness is a parameter of the cell.
- The year progress bar in `index.ts` is not modelled, because it uses floating point and `Date` arithmetic.
- The light-status, temperature and humidity screen pipelines (`parseInt`, `distinctUntilChanged`) are not modelled.
- The motion pipeline is not modelled. It republishes every defined `/sensor/motion` value on `/light/toggle`.
- The five-second clock `interval` is not modelled. The clock's values are the inputs of the date and time format functions.
- Strings.IntToDecimal: `${n}` is modelled for integers only, and only below 10^21 in magnitude. JavaScript prints larger numbers in exponent form (`1e+21`), and numbers above 2^53 are not exact integers. The model prints every digit. The program prints only small constants and clock fields.
- Index.ScreenLine: `padEnd`, `padStart` and `slice` count UTF-16 code units, while the model counts Unicode characters. A message with a character outside the Basic Multilingual Plane is measured differently, and `slice(0, 22)` can cut its surrogate pair.
- RxHttp.ConcatAppend: the body chunks are modelled as strings already decoded. In the source each `data` chunk is a `Buffer` decoded on its own by `join('')`, so a multi-byte UTF-8 character split across two chunks becomes replacement characters.
- Index.DateRoundTrip: proved only for non-negative year, month index and day, because a minus sign would collide with the `-` separator.
- Index.HandlePublish: the source publishes when the body's end event arrives, after the reply. The model publishes at the end of the handler, and the final write log and command log are the same.
- RxHttp.ReadPostData: its own contract says only that a POST always has a body stream. The content of the body is stated by `RxHttp.PostDataIsChunksBeforeEnd` and `RxHttp.PostDataWithoutEnd`.

## Behaviour that follows the code

- Which route receives a request is decided by the order in which the route streams were first subscribed, not left open. The first matching route consumes the request. In the application this is registration order.
- A POST is answered at once. The reply carries the value the topic's subject holds at that moment, because `sub$` is a `BehaviorSubject` and replays its current value; that is the value before the publish. Any later value, including the broker's echo of the publish, meets the write-once guard and is not written.
- With no route registered, the fallback condition is never checked, so a request is never answered.
- Route keys join the method and the pattern with a space, so two different routes could share a key if a method contained a space. HTTP methods never do, and `RxHttp.RouteKeyInjective` is stated under that condition.
