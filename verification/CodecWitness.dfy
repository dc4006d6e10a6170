/** A concrete record codec that meets the laws the log asks of JSON, so that they are not vacuous.
    A row is a list of JSON values between braces; texts are written as six letters per character. */
module CodecWitness {
  import opened Wrappers
  import opened JsonLines
  import opened Records

  const OPEN_BRACE: byte := 123
  const CLOSE_BRACE: byte := 125
  const NULL_TAG: byte := 78
  const STRING_TAG: byte := 83
  const OTHER_TAG: byte := 79
  const END_OF_TEXT: byte := 46
  const LETTER_A: byte := 97

  /******* Characters and texts *******/

  function Digit(d: int): byte
    requires 0 <= d < 16
  {
    LETTER_A + d as byte
  }

  predicate IsDigit(b: byte) {
    LETTER_A <= b < LETTER_A + 16
  }

  function Value(b: byte): int
    requires IsDigit(b)
  {
    (b - LETTER_A) as int
  }

  function CharBytes(ch: char): (bs: seq<byte>)
    ensures |bs| == 6 && forall i :: 0 <= i < 6 ==> IsDigit(bs[i])
  {
    var x1 := ch as int / 16;
    var x2 := x1 / 16;
    var x3 := x2 / 16;
    var x4 := x3 / 16;
    [Digit(x4 / 16), Digit(x4 % 16), Digit(x3 % 16), Digit(x2 % 16), Digit(x1 % 16), Digit(ch as int % 16)]
  }

  function CharValue(b: seq<byte>): int
    requires |b| >= 6 && forall i :: 0 <= i < 6 ==> IsDigit(b[i])
  {
    ((((Value(b[0]) * 16 + Value(b[1])) * 16 + Value(b[2])) * 16 + Value(b[3])) * 16 + Value(b[4])) * 16 + Value(b[5])
  }

  lemma CharRoundTrip(ch: char, rest: seq<byte>)
    ensures CharValue(CharBytes(ch) + rest) == ch as int
  {
  }

  function TextBytes(s: string): seq<byte> {
    if s == "" then [END_OF_TEXT] else CharBytes(s[0]) + TextBytes(s[1..])
  }

  function ParseText(b: seq<byte>): (r: Option<(string, seq<byte>)>)
    ensures r.Some? ==> |r.value.1| < |b|
  {
    if b == [] then None
    else if b[0] == END_OF_TEXT then Some(("", b[1..]))
    else if |b| < 6 || exists i :: 0 <= i < 6 && !IsDigit(b[i]) then None
    else
      var x := CharValue(b);
      if !(0 <= x < 0xD800 || 0xE000 <= x < 0x11_0000) then None
      else match ParseText(b[6..])
           case None => None
           case Some((s, rest)) => Some(([x as char] + s, rest))
  }

  lemma {:induction false} TextRoundTrip(s: string, rest: seq<byte>)
    ensures ParseText(TextBytes(s) + rest) == Some((s, rest))
  {
    var b := TextBytes(s) + rest;
    if s == "" {
      assert b[1..] == rest;
    } else {
      var tail := TextBytes(s[1..]) + rest;
      assert b == CharBytes(s[0]) + tail;
      CharRoundTrip(s[0], tail);
      TextRoundTrip(s[1..], rest);
      assert b[6..] == tail;
      assert [s[0]] + s[1..] == s;
    }
  }

  /******* Rows *******/

  function FieldBytes(v: JsonValue): seq<byte> {
    match v
    case Null => [NULL_TAG]
    case Str(s) => [STRING_TAG] + TextBytes(s)
    case Other(r) => [OTHER_TAG] + TextBytes(r)
  }

  function FieldsBytes(vs: seq<JsonValue>): seq<byte> {
    if vs == [] then [] else FieldBytes(vs[0]) + FieldsBytes(vs[1..])
  }

  function ParseFields(b: seq<byte>): Option<seq<JsonValue>>
    decreases |b|
  {
    if b == [] then Some([])
    else if b[0] == NULL_TAG then ConsField(Null, ParseFields(b[1..]))
    else if b[0] == STRING_TAG || b[0] == OTHER_TAG then
      match ParseText(b[1..])
      case None => None
      case Some((s, rest)) => ConsField(if b[0] == STRING_TAG then Str(s) else Other(s), ParseFields(rest))
    else None
  }

  function ConsField(v: JsonValue, vs: Option<seq<JsonValue>>): Option<seq<JsonValue>> {
    if vs.Some? then Some([v] + vs.value) else None
  }

  lemma ParseTaggedText(tag: byte, s: string, tail: seq<byte>)
    requires tag == STRING_TAG || tag == OTHER_TAG
    ensures ParseFields([tag] + (TextBytes(s) + tail))
         == ConsField(if tag == STRING_TAG then Str(s) else Other(s), ParseFields(tail))
  {
    var b := [tag] + (TextBytes(s) + tail);
    TextRoundTrip(s, tail);
    assert b[1..] == TextBytes(s) + tail;
  }

  lemma ParseOneField(v: JsonValue, tail: seq<byte>)
    ensures ParseFields(FieldBytes(v) + tail) == ConsField(v, ParseFields(tail))
  {
    match v
    case Null => assert (FieldBytes(v) + tail)[1..] == tail;
    case Str(s) =>
      assert FieldBytes(v) + tail == [STRING_TAG] + (TextBytes(s) + tail);
      ParseTaggedText(STRING_TAG, s, tail);
    case Other(r) =>
      assert FieldBytes(v) + tail == [OTHER_TAG] + (TextBytes(r) + tail);
      ParseTaggedText(OTHER_TAG, r, tail);
  }

  lemma {:induction false} FieldsRoundTrip(vs: seq<JsonValue>)
    ensures ParseFields(FieldsBytes(vs)) == Some(vs)
  {
    if vs != [] {
      ParseOneField(vs[0], FieldsBytes(vs[1..]));
      FieldsRoundTrip(vs[1..]);
      assert [vs[0]] + vs[1..] == vs;
    }
  }

  predicate IsFieldByte(b: byte) {
    b == NULL_TAG || b == STRING_TAG || b == OTHER_TAG || b == END_OF_TEXT || IsDigit(b)
  }

  predicate AllFieldBytes(bs: seq<byte>) {
    forall i :: 0 <= i < |bs| ==> IsFieldByte(bs[i])
  }

  lemma {:induction false} ParsedTextBytes(b: seq<byte>)
    requires ParseText(b).Some? && AllFieldBytes(ParseText(b).value.1)
    ensures AllFieldBytes(b)
    decreases |b|
  {
    if b[0] == END_OF_TEXT {
      assert b == [b[0]] + b[1..];
    } else {
      ParsedTextBytes(b[6..]);
      assert b == b[..6] + b[6..];
    }
  }

  lemma {:induction false} ParsedFieldsBytes(b: seq<byte>)
    requires ParseFields(b).Some?
    ensures AllFieldBytes(b)
    decreases |b|
  {
    if b != [] {
      if b[0] == NULL_TAG {
        ParsedFieldsBytes(b[1..]);
      } else {
        ParsedFieldsBytes(ParseText(b[1..]).value.1);
        ParsedTextBytes(b[1..]);
      }
      assert b == [b[0]] + b[1..];
    }
  }

  /******* The codec *******/

  function Enclose(b: seq<byte>): seq<byte> {
    [OPEN_BRACE] + b + [CLOSE_BRACE]
  }

  function ParseRow<T>(b: seq<byte>, from: seq<JsonValue> -> Option<T>): Parsed<T> {
    if b == [] then Blank
    else if |b| < 2 || b[0] != OPEN_BRACE || b[|b| - 1] != CLOSE_BRACE then Malformed
    else match ParseFields(b[1..|b| - 1])
         case None => Malformed
         case Some(vs) => match from(vs) {
           case None => NonObject
           case Some(t) => Object(t)
         }
  }

  function FieldCodec<T>(to: T -> seq<JsonValue>, from: seq<JsonValue> -> Option<T>): Codec<T> {
    Codec(t => Enclose(FieldsBytes(to(t))), b => ParseRow(b, from))
  }

  lemma EncodingShape(vs: seq<JsonValue>)
    ensures AllFieldBytes(FieldsBytes(vs))
    ensures ParseFields(FieldsBytes(vs)) == Some(vs)
  {
    FieldsRoundTrip(vs);
    ParsedFieldsBytes(FieldsBytes(vs));
  }

  lemma PrefixDoesNotParse<T>(vs: seq<JsonValue>, n: nat, from: seq<JsonValue> -> Option<T>)
    requires n < |Enclose(FieldsBytes(vs))|
    ensures !ParseRow(Enclose(FieldsBytes(vs))[..n], from).Object?
  {
    EncodingShape(vs);
    var p := Enclose(FieldsBytes(vs))[..n];
    if n >= 2 {
      assert p[n - 1] == FieldsBytes(vs)[n - 2];
      assert IsFieldByte(p[n - 1]);
    }
  }

  lemma GluedDoesNotParse<T>(vs: seq<JsonValue>, n: nat, us: seq<JsonValue>, from: seq<JsonValue> -> Option<T>)
    requires 0 < n <= |Enclose(FieldsBytes(vs))|
    ensures ParseRow(Enclose(FieldsBytes(vs))[..n] + Enclose(FieldsBytes(us)), from) == Malformed
  {
    var b := Enclose(FieldsBytes(vs))[..n] + Enclose(FieldsBytes(us));
    var body := b[1..|b| - 1];
    assert body[n - 1] == b[n] == OPEN_BRACE;
    assert !IsFieldByte(body[n - 1]);
    if ParseFields(body).Some? {
      ParsedFieldsBytes(body);
    }
  }

  /** Every record type that can be turned into fields and back has a lawful codec. */
  lemma FieldCodecIsLawful<T(!new)>(to: T -> seq<JsonValue>, from: seq<JsonValue> -> Option<T>)
    requires forall t :: from(to(t)) == Some(t)
    ensures Lawful(FieldCodec(to, from)) && NeverGlues(FieldCodec(to, from))
  {
    var c := FieldCodec(to, from);
    forall t
      ensures c.parse(c.encode(t)) == Object(t)
      ensures NEWLINE !in c.encode(t) && CARRIAGE_RETURN !in c.encode(t)
    {
      EncodingShape(to(t));
      var b := c.encode(t);
      assert b[1..|b| - 1] == FieldsBytes(to(t));
    }
    forall t, n | 0 <= n < |c.encode(t)| ensures !c.parse(c.encode(t)[..n]).Object? {
      PrefixDoesNotParse(to(t), n, from);
    }
    forall r, n, s | 0 < n <= |c.encode(r)| ensures c.parse(c.encode(r)[..n] + c.encode(s)) == Malformed {
      GluedDoesNotParse(to(r), n, to(s), from);
    }
  }

  /******* Events *******/

  function NameText(name: EventName): string {
    match name
    case CheckpointAdvanced => "checkpoint_advanced"
    case InitialSyncCompleted => "initial_sync_completed"
    case InitialSyncNotificationSent => "initial_sync_notification_sent"
    case IncidentOpened => "incident_opened"
    case IncidentSuppressed => "incident_suppressed"
    case IncidentRecovered => "incident_recovered"
    case Failed(kind) => FailureText(kind)
  }

  function NameOf(text: string): Option<EventName> {
    if text == "checkpoint_advanced" then Some(CheckpointAdvanced)
    else if text == "initial_sync_completed" then Some(InitialSyncCompleted)
    else if text == "initial_sync_notification_sent" then Some(InitialSyncNotificationSent)
    else if text == "incident_opened" then Some(IncidentOpened)
    else if text == "incident_suppressed" then Some(IncidentSuppressed)
    else if text == "incident_recovered" then Some(IncidentRecovered)
    else if text == "source_failed" then Some(Failed(SourceFailed))
    else if text == "auth_failed" then Some(Failed(AuthFailed))
    else if text == "message_detail_failed" then Some(Failed(MessageDetailFailed))
    else if text == "delivery_failed" then Some(Failed(DeliveryFailed))
    else if text == "checkpoint_failed" then Some(Failed(CheckpointFailed))
    else if text == "config_failed" then Some(Failed(ConfigFailed))
    else None
  }

  function EventFields(e: Event): seq<JsonValue> {
    [Str(NameText(e.name)), e.checkpoint, e.kind, e.detail]
  }

  function EventOf(vs: seq<JsonValue>): Option<Event> {
    if |vs| != 4 || !vs[0].Str? then None
    else match NameOf(vs[0].s)
         case None => None
         case Some(name) => Some(Event(name, vs[1], vs[2], vs[3]))
  }

  const EVENT_CODEC: Codec<Event> := FieldCodec(EventFields, EventOf)

  lemma FailureRoundTrip(kind: FailureKind)
    ensures NameOf(NameText(Failed(kind))) == Some(Failed(kind))
  {
    var t := NameText(Failed(kind));
    assert t[0] != 'i' && |t| != 19;
    match kind
    case SourceFailed => assert t[0] == 's';
    case AuthFailed => assert t[0] == 'a';
    case MessageDetailFailed => assert t[0] == 'm';
    case DeliveryFailed => assert t[0] == 'd';
    case CheckpointFailed => assert |t| == 17;
    case ConfigFailed => assert |t| == 13 && t[0] == 'c';
  }

  lemma NameRoundTrip(name: EventName)
    ensures NameOf(NameText(name)) == Some(name)
  {
    match name
    case Failed(kind) => FailureRoundTrip(kind);
    case _ =>
  }

  lemma EventCodecIsLawful()
    ensures Lawful(EVENT_CODEC) && NeverGlues(EVENT_CODEC)
  {
    forall e: Event ensures EventOf(EventFields(e)) == Some(e) {
      NameRoundTrip(e.name);
    }
    FieldCodecIsLawful(EventFields, EventOf);
  }
}
