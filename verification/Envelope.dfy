/** The envelopes exchanged with an orchestrator: the hand-written decoder, and the encoder. */
module Envelope {
  import opened Types
  import opened Wire

  const FIELD_SESSION_ID := 1
  const FIELD_EVENT := 2
  const FIELD_SESSION_END := 3

  const EVENT_CHANNEL := 1
  const EVENT_PAYLOAD := 2
  const EVENT_CONTENT_TYPE := 3

  const FIELD_BODY := 2
  const RESULT_SUCCESS := 1
  const RESULT_ERROR := 2

  /** Strings are bytes here: the decoder does not check their encoding. */
  datatype Delivery = Delivery(channel: Data, payload: Data, contentType: Data)

  datatype Orchestrator = Orchestrator(sessionID: Data, event: Option<Delivery>, sessionEnd: bool)

  datatype EventResult = EventResult(success: bool, errorMessage: Data)

  datatype HarnessReply = HarnessReply(sessionID: Data, result: Option<EventResult>)

  datatype DecodeError =
    | Malformed
    | WrongWireType(number: nat)
    | ChannelRequired
    | SessionIDRequired
    | NoBody
    | MultipleBodies
    | ResultRequired

  // ----- what a message says: a fold over its records -----

  /** The payload of the last record with this number; empty when there is none. */
  function Last(rs: seq<Record>, number: nat): Data {
    if rs == [] then []
    else if rs[|rs| - 1].number == number then rs[|rs| - 1].body
    else Last(rs[..|rs| - 1], number)
  }

  ghost predicate Has(rs: seq<Record>, number: nat) {
    exists r :: r in rs && r.number == number
  }

  /** Records with numbers 1, 2 and 3 are the known ones, in both messages, and all are length-delimited. */
  predicate Known(r: Record) {
    1 <= r.number <= 3
  }

  ghost predicate TypesMatch(rs: seq<Record>) {
    forall r :: r in rs && Known(r) ==> r.typ == BYTES
  }

  ghost predicate EventAccepted(data: Data) {
    Records(data).Some? && TypesMatch(Records(data).value) && Last(Records(data).value, EVENT_CHANNEL) != []
  }

  function DeliveryOf(rs: seq<Record>): Delivery {
    Delivery(Last(rs, EVENT_CHANNEL), Last(rs, EVENT_PAYLOAD), Last(rs, EVENT_CONTENT_TYPE))
  }

  /** Every event in the message is acceptable, also those replaced by a later one. */
  ghost predicate EventsAccepted(rs: seq<Record>) {
    forall r :: r in rs && r.number == FIELD_EVENT ==> EventAccepted(r.body)
  }

  /** The envelope being filled in after these records. */
  ghost function Filled(rs: seq<Record>): Orchestrator {
    Orchestrator(Last(rs, FIELD_SESSION_ID),
                 if Has(rs, FIELD_EVENT) && Records(Last(rs, FIELD_EVENT)).Some?
                 then Some(DeliveryOf(Records(Last(rs, FIELD_EVENT)).value)) else None,
                 Has(rs, FIELD_SESSION_END))
  }

  ghost predicate Accepted(rs: seq<Record>) {
    && TypesMatch(rs) && EventsAccepted(rs)
    && Last(rs, FIELD_SESSION_ID) != []
    && Has(rs, FIELD_EVENT) != Has(rs, FIELD_SESSION_END)
  }

  /** The complaint about well-formed records that do not make up an envelope. */
  ghost function Refusal(rs: seq<Record>): DecodeError {
    if Last(rs, FIELD_SESSION_ID) == [] then SessionIDRequired
    else if !Has(rs, FIELD_EVENT) && !Has(rs, FIELD_SESSION_END) then NoBody
    else MultipleBodies
  }

  /** The first complaint about the fields of an event, read from the front. */
  function EventFault(data: Data): Option<DecodeError> {
    if data == [] then None
    else
      match ConsumeTag(data)
      case None => Some(Malformed)
      case Some(t) =>
        if 1 <= t.number <= 3 && t.typ != BYTES then Some(WrongWireType(t.number))
        else
          match ConsumeFieldValue(t.number, t.typ, data[t.size..])
          case None => Some(Malformed)
          case Some(n) => EventFault(data[t.size..][n..])
  }

  /** The complaint about an event that is not acceptable. */
  function EventRefusal(data: Data): DecodeError {
    match EventFault(data)
    case Some(e) => e
    case None => ChannelRequired
  }

  /** The first complaint about the fields of an envelope, that about an unacceptable event among them. */
  ghost function EnvelopeFault(data: Data): Option<DecodeError> {
    if data == [] then None
    else
      match ConsumeTag(data)
      case None => Some(Malformed)
      case Some(t) =>
        if 1 <= t.number <= 3 && t.typ != BYTES then Some(WrongWireType(t.number))
        else
          match ConsumeFieldValue(t.number, t.typ, data[t.size..])
          case None => Some(Malformed)
          case Some(n) =>
            var body := Body(t.typ, data[t.size..][..n]);
            if t.number == FIELD_EVENT && !EventAccepted(body) then Some(EventRefusal(body))
            else EnvelopeFault(data[t.size..][n..])
  }

  // ----- the decoders -----

  lemma LastLonger(rs: seq<Record>, r: Record, number: nat)
    ensures Last(rs + [r], number) == if r.number == number then r.body else Last(rs, number)
    ensures Has(rs + [r], number) <==> Has(rs, number) || r.number == number
    ensures TypesMatch(rs + [r]) <==> TypesMatch(rs) && (Known(r) ==> r.typ == BYTES)
    ensures EventsAccepted(rs + [r]) <==> EventsAccepted(rs) && (r.number == FIELD_EVENT ==> EventAccepted(r.body))
  {
    var all := rs + [r];
    assert all[..|all| - 1] == rs && all[|all| - 1] == r;
    assert forall x :: x in all <==> x in rs || x == r;
  }

  /** data is the records `done` followed by `rest`. */
  ghost predicate ReadSoFar(data: Data, done: seq<Record>, rest: Data) {
    Records(data) == Prepend(done, Records(rest))
  }

  /** One more record is read: the rest shrinks. */
  lemma ReadOne(data: Data, done: seq<Record>, rest: Data, t: Tag, n: nat)
    requires ReadSoFar(data, done, rest) && rest != []
    requires ConsumeTag(rest) == Some(t) && ConsumeFieldValue(t.number, t.typ, rest[t.size..]) == Some(n)
    ensures t.size + n <= |rest| && ReadSoFar(data, done + [RecordOf(t, rest, n)], rest[t.size..][n..])
  {
    hide ConsumeTag, ConsumeFieldValue;
    FirstIs(rest, t, n);
    var r := RecordOf(t, rest, n);
    assert rest[t.size..][n..] == rest[t.size + n..];
    PrependTwice(done, [r], Records(rest[t.size + n..]));
  }

  /** What cannot be read spoils the whole message. */
  lemma ReadNone(data: Data, done: seq<Record>, rest: Data)
    requires ReadSoFar(data, done, rest) && rest != []
    requires ConsumeTag(rest).None?
             || ConsumeFieldValue(ConsumeTag(rest).value.number, ConsumeTag(rest).value.typ,
               rest[ConsumeTag(rest).value.size..]).None?
    ensures Records(data).None?
  {
    hide ConsumeTag, ConsumeFieldValue;
  }

  /** A known field of another wire type makes the message unacceptable, whether its value can be read or not. */
  lemma WrongType(data: Data, done: seq<Record>, rest: Data, t: Tag)
    requires ReadSoFar(data, done, rest) && rest != [] && ConsumeTag(rest) == Some(t)
    requires 1 <= t.number <= 3 && t.typ != BYTES
    ensures Records(data).Some? ==> !TypesMatch(Records(data).value)
  {
    hide ConsumeTag, ConsumeFieldValue;
    var v := ConsumeFieldValue(t.number, t.typ, rest[t.size..]);
    if v.None? {
      ReadNone(data, done, rest);
    } else {
      ReadOne(data, done, rest, t, v.value);
      var r := RecordOf(t, rest, v.value);
      if Records(data).Some? {
        assert Records(data).value[|done|] == r;
        assert r in Records(data).value;
      }
    }
  }

  /** A length-delimited value and what follows it. */
  lemma BytesRead(t: Tag, rest: Data)
    requires ConsumeTag(rest) == Some(t) && t.typ == BYTES
    ensures var b := ConsumeBytes(rest[t.size..]);
      if b.None? then ConsumeFieldValue(t.number, t.typ, rest[t.size..]) == None
      else ConsumeFieldValue(t.number, t.typ, rest[t.size..]) == Some(b.value.1)
           && RecordOf(t, rest, b.value.1) == Record(t.number, t.typ, rest[t.size..][b.value.0..b.value.1])
  {
    hide ConsumeTag, ConsumeVarint;
    var value := rest[t.size..];
    var b := ConsumeBytes(value);
    if b.Some? {
      BytesAlone(value, b.value.0, b.value.1);
    }
  }

  lemma BytesAlone(value: Data, from: nat, to: nat)
    requires ConsumeBytes(value) == Some((from, to))
    ensures Body(BYTES, value[..to]) == value[from..to]
  {
    hide VarintFrom;
    var v := ConsumeVarint(value).value;
    VarintAlone(value, 0, to);
    assert value[..to][from..to] == value[from..to];
  }

  /** A varint does not look beyond its own bytes. */
  lemma {:induction false} VarintAlone(data: Data, k: nat, to: nat)
    requires k < 10 && VarintFrom(data, k).Some? && VarintFrom(data, k).value.size <= to <= |data|
    ensures VarintFrom(data[..to], k) == VarintFrom(data, k)
    decreases 10 - k
  {
    if data[0] >= 128 {
      assert data[..to][1..] == data[1..][..to - 1];
      VarintAlone(data[1..], k + 1, to - 1);
    }
  }

  lemma EventFaultEnds()
    ensures EventFault([]) == None
  {
  }

  /** One field: it is at fault, or what follows is. */
  lemma EventFaultNext(data: Data)
    requires data != []
    ensures ConsumeTag(data).None? ==> EventFault(data) == Some(Malformed)
    ensures ConsumeTag(data).Some? ==>
      var t := ConsumeTag(data).value;
      var v := ConsumeFieldValue(t.number, t.typ, data[t.size..]);
      EventFault(data) ==
        if 1 <= t.number <= 3 && t.typ != BYTES then Some(WrongWireType(t.number))
        else if v.None? then Some(Malformed)
        else EventFault(data[t.size..][v.value..])
  {
    hide ConsumeTag, ConsumeFieldValue;
  }

  method UnmarshalEvent(input: Data) returns (r: Result<Delivery, DecodeError>)
    ensures r.Ok? <==> EventAccepted(input)
    ensures r.Ok? ==> r.value == DeliveryOf(Records(input).value)
    ensures r.Err? ==> r.error == EventRefusal(input)
  {
    hide ConsumeTag, ConsumeFieldValue, RecordOf, EventFault;
    EventFaultEnds();
    var data := input;
    var event := Delivery([], [], []);
    ghost var done: seq<Record> := [];
    assert Records(data).Some? ==> [] + Records(data).value == Records(data).value;
    while |data| > 0
      invariant ReadSoFar(input, done, data)
      invariant TypesMatch(done) && event == DeliveryOf(done) && EventFault(input) == EventFault(data)
      decreases |data|
    {
      var tag := ConsumeTag(data);
      EventFaultNext(data);
      if tag.None? { ReadNone(input, done, data); return Err(Malformed); }
      var t := tag.value;
      var rest := data[t.size..];
      ghost var record;
      if 1 <= t.number <= 3 {
        if t.typ != BYTES { WrongType(input, done, data, t); return Err(WrongWireType(t.number)); }
        var b := ConsumeBytes(rest);
        BytesRead(t, data);
        if b.None? { ReadNone(input, done, data); return Err(Malformed); }
        var value := rest[b.value.0..b.value.1];
        if t.number == EVENT_CHANNEL { event := event.(channel := value); }
        else if t.number == EVENT_PAYLOAD { event := event.(payload := value); }
        else { event := event.(contentType := value); }
        ReadOne(input, done, data, t, b.value.1);
        record := Record(t.number, t.typ, value);
        data := rest[b.value.1..];
      } else {
        var m := ConsumeFieldValue(t.number, t.typ, rest);
        if m.None? { ReadNone(input, done, data); return Err(Malformed); }
        ReadOne(input, done, data, t, m.value);
        record := RecordOf(t, data, m.value);
        RecordNumber(t, data, m.value);
        data := rest[m.value..];
      }
      DeliveryLonger(done, record);
      done := done + [record];
    }
    assert Records(input) == Some(done + []) && done + [] == done;
    if |event.channel| == 0 { return Err(ChannelRequired); }
    r := Ok(event);
  }

  lemma RecordNumber(t: Tag, data: Data, n: nat)
    requires t.size + n <= |data|
    ensures RecordOf(t, data, n).number == t.number
  {
  }

  lemma DeliveryLonger(rs: seq<Record>, r: Record)
    ensures DeliveryOf(rs + [r]) ==
      Delivery(if r.number == EVENT_CHANNEL then r.body else Last(rs, EVENT_CHANNEL),
               if r.number == EVENT_PAYLOAD then r.body else Last(rs, EVENT_PAYLOAD),
               if r.number == EVENT_CONTENT_TYPE then r.body else Last(rs, EVENT_CONTENT_TYPE))
    ensures TypesMatch(rs + [r]) <==> TypesMatch(rs) && (Known(r) ==> r.typ == BYTES)
  {
    LastLonger(rs, r, EVENT_CHANNEL);
    LastLonger(rs, r, EVENT_PAYLOAD);
    LastLonger(rs, r, EVENT_CONTENT_TYPE);
  }

  lemma EnvelopeFaultEnds()
    ensures EnvelopeFault([]) == None
  {
  }

  lemma EnvelopeFaultNext(data: Data)
    requires data != []
    ensures ConsumeTag(data).None? ==> EnvelopeFault(data) == Some(Malformed)
    ensures ConsumeTag(data).Some? ==>
      var t := ConsumeTag(data).value;
      var v := ConsumeFieldValue(t.number, t.typ, data[t.size..]);
      EnvelopeFault(data) ==
        if 1 <= t.number <= 3 && t.typ != BYTES then Some(WrongWireType(t.number))
        else if v.None? then Some(Malformed)
        else if t.number == FIELD_EVENT && !EventAccepted(RecordOf(t, data, v.value).body)
        then Some(EventRefusal(RecordOf(t, data, v.value).body))
        else EnvelopeFault(data[t.size..][v.value..])
  {
    hide ConsumeTag, ConsumeFieldValue, EventAccepted, EventRefusal;
  }

  method UnmarshalOrchestratorEnvelope(input: Data) returns (r: Result<Orchestrator, DecodeError>)
    ensures r.Ok? <==> Records(input).Some? && Accepted(Records(input).value)
    ensures r.Ok? ==> r.value == Filled(Records(input).value)
    ensures r.Err? && EnvelopeFault(input).Some? ==> r.error == EnvelopeFault(input).value
    ensures r.Err? && EnvelopeFault(input).None? ==> Records(input).Some? && r.error == Refusal(Records(input).value)
  {
    hide ConsumeTag, ConsumeFieldValue, RecordOf, EnvelopeFault, EventRefusal, EventAccepted;
    EnvelopeFaultEnds();
    var data := input;
    var envelope := Orchestrator([], None, false);
    ghost var done: seq<Record> := [];
    assert Records(data).Some? ==> [] + Records(data).value == Records(data).value;
    while |data| > 0
      invariant ReadSoFar(input, done, data)
      invariant TypesMatch(done) && EventsAccepted(done) && envelope == Filled(done)
      invariant EnvelopeFault(input) == EnvelopeFault(data)
      decreases |data|
    {
      var tag := ConsumeTag(data);
      EnvelopeFaultNext(data);
      if tag.None? { ReadNone(input, done, data); return Err(Malformed); }
      var t := tag.value;
      var rest := data[t.size..];
      ghost var record;
      if 1 <= t.number <= 3 {
        if t.typ != BYTES { WrongType(input, done, data, t); return Err(WrongWireType(t.number)); }
        var b := ConsumeBytes(rest);
        BytesRead(t, data);
        if b.None? { ReadNone(input, done, data); return Err(Malformed); }
        var value := rest[b.value.0..b.value.1];
        ReadOne(input, done, data, t, b.value.1);
        record := Record(t.number, t.typ, value);
        if t.number == FIELD_SESSION_ID {
          envelope := envelope.(sessionID := value);
        } else if t.number == FIELD_EVENT {
          var event := UnmarshalEvent(value);
          if event.Err? {
            RefusedEvent(input, done, record, rest[b.value.1..]);
            return Err(event.error);
          }
          envelope := envelope.(event := Some(event.value));
        } else {
          envelope := envelope.(sessionEnd := true);
        }
        data := rest[b.value.1..];
      } else {
        var m := ConsumeFieldValue(t.number, t.typ, rest);
        if m.None? { ReadNone(input, done, data); return Err(Malformed); }
        ReadOne(input, done, data, t, m.value);
        record := RecordOf(t, data, m.value);
        RecordNumber(t, data, m.value);
        data := rest[m.value..];
      }
      FilledLonger(done, record);
      done := done + [record];
    }
    assert Records(input) == Some(done + []) && done + [] == done;
    EventFilled(done);
    if |envelope.sessionID| == 0 { return Err(SessionIDRequired); }
    if envelope.event.None? && !envelope.sessionEnd { return Err(NoBody); }
    if envelope.event.Some? && envelope.sessionEnd { return Err(MultipleBodies); }
    r := Ok(envelope);
  }

  /** One unacceptable event spoils the message, whatever comes later. */
  lemma RefusedEvent(data: Data, done: seq<Record>, r: Record, rest: Data)
    requires ReadSoFar(data, done + [r], rest) && r.number == FIELD_EVENT && !EventAccepted(r.body)
    ensures Records(data).Some? ==> !EventsAccepted(Records(data).value)
  {
    if Records(data).Some? {
      assert Records(data).value[|done|] == r;
      assert r in Records(data).value;
    }
  }

  lemma FilledLonger(rs: seq<Record>, r: Record)
    requires r.number == FIELD_EVENT ==> EventAccepted(r.body)
    ensures Filled(rs + [r]) ==
      Orchestrator(if r.number == FIELD_SESSION_ID then r.body else Last(rs, FIELD_SESSION_ID),
                   if r.number == FIELD_EVENT then Some(DeliveryOf(Records(r.body).value)) else Filled(rs).event,
                   r.number == FIELD_SESSION_END || Has(rs, FIELD_SESSION_END))
    ensures TypesMatch(rs + [r]) <==> TypesMatch(rs) && (Known(r) ==> r.typ == BYTES)
    ensures EventsAccepted(rs + [r]) <==> EventsAccepted(rs) && (r.number == FIELD_EVENT ==> EventAccepted(r.body))
  {
    LastLonger(rs, r, FIELD_SESSION_ID);
    LastLonger(rs, r, FIELD_EVENT);
    LastLonger(rs, r, FIELD_SESSION_END);
  }

  /** Among acceptable events, the envelope has one as soon as there was one. */
  lemma EventFilled(rs: seq<Record>)
    requires EventsAccepted(rs)
    ensures Filled(rs).event.Some? <==> Has(rs, FIELD_EVENT)
  {
    LastIsSome(rs, FIELD_EVENT);
  }

  lemma {:induction false} LastIsSome(rs: seq<Record>, number: nat)
    ensures if Has(rs, number) then exists r :: r in rs && r.number == number && r.body == Last(rs, number)
            else Last(rs, number) == []
  {
    if rs != [] {
      var before, r := rs[..|rs| - 1], rs[|rs| - 1];
      assert rs == before + [r];
      LastIsSome(before, number);
      LastLonger(before, r, number);
      if r.number != number && Has(before, number) {
        var x :| x in before && x.number == number && x.body == Last(before, number);
        assert x in rs;
      }
    }
  }

  // ----- what the meaning of a message depends on -----

  /** The records with known numbers, in order. */
  function KnownOnly(rs: seq<Record>): seq<Record> {
    if rs == [] then []
    else KnownOnly(rs[..|rs| - 1]) + if Known(rs[|rs| - 1]) then [rs[|rs| - 1]] else []
  }

  lemma {:induction false} KnownConcat(a: seq<Record>, b: seq<Record>)
    ensures KnownOnly(a + b) == KnownOnly(a) + KnownOnly(b)
  {
    if b == [] {
      assert a + b == a;
    } else {
      assert (a + b)[..|a + b| - 1] == a + b[..|b| - 1];
      KnownConcat(a, b[..|b| - 1]);
    }
  }

  lemma {:induction false} KnownDecides(rs: seq<Record>, number: nat)
    requires 1 <= number <= 3
    ensures Last(KnownOnly(rs), number) == Last(rs, number)
    ensures Has(KnownOnly(rs), number) <==> Has(rs, number)
    ensures TypesMatch(KnownOnly(rs)) <==> TypesMatch(rs)
    ensures EventsAccepted(KnownOnly(rs)) <==> EventsAccepted(rs)
  {
    if rs != [] {
      var before, r := rs[..|rs| - 1], rs[|rs| - 1];
      assert rs == before + [r];
      KnownDecides(before, number);
      LastLonger(before, r, number);
      if Known(r) {
        LastLonger(KnownOnly(before), r, number);
      } else {
        assert KnownOnly(rs) == KnownOnly(before);
      }
    }
  }

  /** Two messages with the same known records in the same order are accepted alike and say the same. */
  lemma SameKnownSameMeaning(rs: seq<Record>, ss: seq<Record>)
    requires KnownOnly(rs) == KnownOnly(ss)
    ensures Accepted(rs) <==> Accepted(ss)
    ensures Filled(rs) == Filled(ss) && DeliveryOf(rs) == DeliveryOf(ss)
    ensures TypesMatch(rs) <==> TypesMatch(ss)
  {
    forall number: nat | 1 <= number <= 3
      ensures Last(rs, number) == Last(ss, number) && (Has(rs, number) <==> Has(ss, number))
    {
      KnownDecides(rs, number);
      KnownDecides(ss, number);
    }
    KnownDecides(rs, 1);
    KnownDecides(ss, 1);
  }

  lemma InsertUnknown(a: seq<Record>, u: seq<Record>, b: seq<Record>)
    requires forall r :: r in u ==> !Known(r)
    ensures KnownOnly(a + u + b) == KnownOnly(a + b)
  {
    KnownConcat(a + u, b);
    KnownConcat(a, u);
    KnownConcat(a, b);
    NoneKnown(u);
    assert KnownOnly(a) + [] == KnownOnly(a);
  }

  lemma {:induction false} NoneKnown(u: seq<Record>)
    requires forall r :: r in u ==> !Known(r)
    ensures KnownOnly(u) == []
  {
    if u != [] {
      assert u[|u| - 1] in u;
      NoneKnown(u[..|u| - 1]);
    }
  }

  /** Bytes that are records with unknown numbers only. */
  ghost predicate UnknownFields(u: Data) {
    Records(u).Some? && forall r :: r in Records(u).value ==> !Known(r)
  }

  /** Unknown fields between two complete parts of an envelope change neither acceptance nor meaning. */
  lemma UnknownFieldsIgnored(a: Data, u: Data, b: Data)
    requires Records(a).Some? && UnknownFields(u)
    ensures Records(a + u + b).Some? <==> Records(a + b).Some?
    ensures Records(a + b).Some? ==>
      var with, without := Records(a + u + b).value, Records(a + b).value;
      (Accepted(with) <==> Accepted(without)) && Filled(with) == Filled(without)
    ensures EventAccepted(a + u + b) <==> EventAccepted(a + b)
    ensures Records(a + b).Some? ==> DeliveryOf(Records(a + u + b).value) == DeliveryOf(Records(a + b).value)
  {
    RecordsConcat(a, u);
    RecordsConcat(a + u, b);
    RecordsConcat(a, b);
    if Records(b).Some? {
      var ra, ru, rb := Records(a).value, Records(u).value, Records(b).value;
      InsertUnknown(ra, ru, rb);
      SameKnownSameMeaning(ra + ru + rb, ra + rb);
    }
  }

  function EventRecord(body: Data): Record {
    Record(FIELD_EVENT, BYTES, body)
  }

  /** Two event bodies that are acceptable alike and say the same. */
  ghost predicate SameEvent(x: Data, y: Data) {
    && (EventAccepted(x) <==> EventAccepted(y)) && (Records(x).Some? <==> Records(y).Some?)
    && (Records(x).Some? ==> DeliveryOf(Records(x).value) == DeliveryOf(Records(y).value))
  }

  lemma {:induction false} EventReplaced(pre: seq<Record>, x: Data, y: Data, post: seq<Record>, number: nat)
    requires SameEvent(x, y)
    ensures var rs, ss := pre + [EventRecord(x)] + post, pre + [EventRecord(y)] + post;
      && (Last(rs, number) == Last(ss, number)
        || (number == FIELD_EVENT && Last(rs, number) == x && Last(ss, number) == y))
      && (Has(rs, number) <==> Has(ss, number))
      && (TypesMatch(rs) <==> TypesMatch(ss)) && (EventsAccepted(rs) <==> EventsAccepted(ss))
  {
    hide EventAccepted, Records, Last, Has, TypesMatch, EventsAccepted;
    if post == [] {
      assert pre + [EventRecord(x)] + post == pre + [EventRecord(x)]
        && pre + [EventRecord(y)] + post == pre + [EventRecord(y)];
      LastLonger(pre, EventRecord(x), number);
      LastLonger(pre, EventRecord(y), number);
    } else {
      var before, r := post[..|post| - 1], post[|post| - 1];
      EventReplaced(pre, x, y, before, number);
      assert pre + [EventRecord(x)] + post == (pre + [EventRecord(x)] + before) + [r];
      assert pre + [EventRecord(y)] + post == (pre + [EventRecord(y)] + before) + [r];
      LastLonger(pre + [EventRecord(x)] + before, r, number);
      LastLonger(pre + [EventRecord(y)] + before, r, number);
    }
  }

  /**
   Unknown fields inserted into the bytes of an event, wherever it stands in an envelope, change nothing about the
   envelope.
   */
  lemma UnknownEventFieldsIgnored(pre: seq<Record>, a: Data, u: Data, b: Data, post: seq<Record>)
    requires Records(a).Some? && UnknownFields(u)
    ensures var with, without := pre + [EventRecord(a + u + b)] + post, pre + [EventRecord(a + b)] + post;
      (Accepted(with) <==> Accepted(without)) && Filled(with) == Filled(without)
  {
    hide EventAccepted, Records, Last, Has, TypesMatch, EventsAccepted, UnknownFields;
    UnknownFieldsIgnored(a, u, b);
    EventReplaced(pre, a + u + b, a + b, post, FIELD_SESSION_ID);
    EventReplaced(pre, a + u + b, a + b, post, FIELD_EVENT);
    EventReplaced(pre, a + u + b, a + b, post, FIELD_SESSION_END);
  }

  /** The same on the bytes of a whole message. */
  lemma UnknownEventBytesIgnored(pre: Data, a: Data, u: Data, b: Data, post: Data)
    requires Records(pre).Some? && Records(a).Some? && UnknownFields(u) && Records(post).Some?
    requires |a| + |u| + |b| < TWO_64
    ensures var with := Records(pre + (AppendTag(FIELD_EVENT, BYTES) + AppendBytes(a + u + b)) + post);
      var without := Records(pre + (AppendTag(FIELD_EVENT, BYTES) + AppendBytes(a + b)) + post);
      with.Some? && without.Some? && (Accepted(with.value) <==> Accepted(without.value))
        && Filled(with.value) == Filled(without.value)
  {
    hide EventAccepted, Records, Accepted, Filled, AppendTag, AppendBytes, UnknownFields;
    EventInMessage(pre, a + u + b, post);
    EventInMessage(pre, a + b, post);
    UnknownEventFieldsIgnored(Records(pre).value, a, u, b, Records(post).value);
  }

  lemma EventInMessage(pre: Data, body: Data, post: Data)
    requires Records(pre).Some? && Records(post).Some? && |body| < TWO_64
    ensures Records(pre + (AppendTag(FIELD_EVENT, BYTES) + AppendBytes(body)) + post)
         == Some(Records(pre).value + [EventRecord(body)] + Records(post).value)
  {
    hide Records, AppendTag, AppendBytes;
    var field := AppendTag(FIELD_EVENT, BYTES) + AppendBytes(body);
    OneBytesField(FIELD_EVENT, body);
    RecordsConcat(pre, field);
    RecordsConcat(pre + field, post);
  }

  lemma {:induction false} LaterDecides(pre: seq<Record>, x: Data, mid: seq<Record>, y: Data, post: seq<Record>,
                                        number: nat)
    ensures var rs, ss := pre + [EventRecord(x)] + mid + [EventRecord(y)] + post, pre + mid + [EventRecord(y)] + post;
      Last(rs, number) == Last(ss, number) && (Has(rs, number) <==> Has(ss, number))
    decreases |mid| + |post|
  {
    hide Last, Has;
    var with, without, last := pre + [EventRecord(x)] + mid, pre + mid, EventRecord(y);
    if post != [] {
      var before, r := post[..|post| - 1], post[|post| - 1];
      LaterDecides(pre, x, mid, y, before, number);
      assert with + [last] + post == (with + [last] + before) + [r]
        && without + [last] + post == (without + [last] + before) + [r];
      LastLonger(with + [last] + before, r, number);
      LastLonger(without + [last] + before, r, number);
    } else {
      assert with + [last] + post == with + [last] && without + [last] + post == without + [last];
      LastLonger(with, last, number);
      LastLonger(without, last, number);
      if number != FIELD_EVENT { EventLeavesOthers(pre, x, mid, number); }
    }
  }

  lemma {:induction false} EventLeavesOthers(pre: seq<Record>, x: Data, mid: seq<Record>, number: nat)
    requires number != FIELD_EVENT
    ensures Last(pre + [EventRecord(x)] + mid, number) == Last(pre + mid, number)
    ensures Has(pre + [EventRecord(x)] + mid, number) <==> Has(pre + mid, number)
  {
    hide Last, Has;
    if mid == [] {
      assert pre + [EventRecord(x)] + mid == pre + [EventRecord(x)] && pre + mid == pre;
      LastLonger(pre, EventRecord(x), number);
    } else {
      var before, r := mid[..|mid| - 1], mid[|mid| - 1];
      EventLeavesOthers(pre, x, before, number);
      assert pre + [EventRecord(x)] + mid == (pre + [EventRecord(x)] + before) + [r]
        && pre + mid == (pre + before) + [r];
      LastLonger(pre + [EventRecord(x)] + before, r, number);
      LastLonger(pre + before, r, number);
    }
  }

  /**
   A later event replaces an earlier one as a whole: the earlier one must be acceptable, and otherwise leaves no
   trace.
   */
  lemma LaterEventReplaces(pre: seq<Record>, x: Data, mid: seq<Record>, y: Data, post: seq<Record>)
    ensures var with, without := pre + [EventRecord(x)] + mid + [EventRecord(y)] + post,
      pre + mid + [EventRecord(y)] + post;
      (Accepted(with) <==> Accepted(without) && EventAccepted(x)) && Filled(with) == Filled(without)
  {
    hide EventAccepted, Records, Last, Has, TypesMatch, EventsAccepted;
    LaterDecides(pre, x, mid, y, post, FIELD_SESSION_ID);
    LaterDecides(pre, x, mid, y, post, FIELD_EVENT);
    LaterDecides(pre, x, mid, y, post, FIELD_SESSION_END);
    EachChecked(pre, x, mid + [EventRecord(y)] + post);
    assert pre + [EventRecord(x)] + mid + [EventRecord(y)] + post
      == pre + [EventRecord(x)] + (mid + [EventRecord(y)] + post);
    assert pre + mid + [EventRecord(y)] + post == pre + (mid + [EventRecord(y)] + post);
  }

  lemma EachChecked(pre: seq<Record>, x: Data, rest: seq<Record>)
    ensures TypesMatch(pre + [EventRecord(x)] + rest) <==> TypesMatch(pre + rest)
    ensures EventsAccepted(pre + [EventRecord(x)] + rest) <==> EventsAccepted(pre + rest) && EventAccepted(x)
  {
    hide EventAccepted;
    var with, without := pre + [EventRecord(x)] + rest, pre + rest;
    assert forall r :: r in with <==> r in without || r == EventRecord(x);
  }

  // ----- the encoder -----

  method MarshalHarnessEnvelope(e: HarnessReply) returns (r: Result<Data, DecodeError>)
    requires e.result.Some? ==> |e.sessionID| < TWO_64 && |e.result.value.errorMessage| + 64 < TWO_64
    ensures e.sessionID == [] ==> r == Err(SessionIDRequired)
    ensures e.sessionID != [] && e.result.None? ==> r == Err(ResultRequired)
    ensures e.sessionID != [] && e.result.Some? ==> r.Ok? && Says(r.value, e.sessionID, e.result.value)
  {
    hide ConsumeTag, ConsumeFieldValue, AppendVarint, AppendTag;
    if |e.sessionID| == 0 { return Err(SessionIDRequired); }
    if e.result.None? { return Err(ResultRequired); }
    var result := e.result.value;
    var flag := if result.success then 1 else 0;
    var body := AppendTag(RESULT_SUCCESS, VARINT) + AppendVarint(flag);
    OneVarintField(RESULT_SUCCESS, flag);
    if |result.errorMessage| > 0 {
      OneBytesField(RESULT_ERROR, result.errorMessage);
      RecordsConcat(body, AppendTag(RESULT_ERROR, BYTES) + AppendBytes(result.errorMessage));
      body := body + (AppendTag(RESULT_ERROR, BYTES) + AppendBytes(result.errorMessage));
    }
    SmallVarint(flag);
    ghost var first := [Record(RESULT_SUCCESS, VARINT, [flag as Byte])];
    assert first + [] == first;
    assert SaysResult(body, result);
    FieldIsShort(RESULT_SUCCESS, VARINT, flag);
    FieldIsShort(RESULT_ERROR, BYTES, |result.errorMessage|);
    assert |AppendBytes(result.errorMessage)| == |AppendVarint(|result.errorMessage|)| + |result.errorMessage|;
    var msg := AppendTag(FIELD_SESSION_ID, BYTES) + AppendBytes(e.sessionID);
    OneBytesField(FIELD_SESSION_ID, e.sessionID);
    OneBytesField(FIELD_BODY, body);
    RecordsConcat(msg, AppendTag(FIELD_BODY, BYTES) + AppendBytes(body));
    msg := msg + (AppendTag(FIELD_BODY, BYTES) + AppendBytes(body));
    EnvelopeSays(msg, e.sessionID, body, result);
    r := Ok(msg);
  }

  lemma EnvelopeSays(msg: Data, sessionID: Data, body: Data, result: EventResult)
    requires SaysResult(body, result)
    requires Records(msg) == Prepend([Record(FIELD_SESSION_ID, BYTES, sessionID)],
      Some([Record(FIELD_BODY, BYTES, body)]))
    ensures Says(msg, sessionID, result)
  {
    hide Records;
    var a, b := Record(FIELD_SESSION_ID, BYTES, sessionID), Record(FIELD_BODY, BYTES, body);
    assert [a] + [b] == [a, b];
  }

  /** A reader of the wire format finds the session ID, and a body with the outcome and any error message. */
  ghost predicate Says(data: Data, sessionID: Data, result: EventResult) {
    exists body :: Records(data) == Some([Record(1, 2, sessionID), Record(2, 2, body)]) && SaysResult(body, result)
  }

  ghost predicate SaysResult(body: Data, result: EventResult) {
    Records(body) == Some([Record(1, 0, [if result.success then 1 else 0])]
      + if result.errorMessage == [] then [] else [Record(2, 2, result.errorMessage)])
  }

  lemma SmallVarint(v: nat)
    requires v < 128
    ensures AppendVarint(v) == [v as Byte]
  {
  }

  lemma OneRecord(data: Data, r: Record)
    requires FirstRecord(data) == Some((r, |data|))
    ensures Records(data) == Some([r])
  {
    hide FirstRecord;
    assert data != [] && data[|data|..] == [];
    assert [r] + [] == [r];
  }

  lemma OneBytesField(number: nat, body: Data)
    requires 0 < number <= MAX_FIELD_NUMBER && |body| < TWO_64
    ensures Records(AppendTag(number, BYTES) + AppendBytes(body)) == Some([Record(number, BYTES, body)])
  {
    var field := AppendTag(number, BYTES) + AppendBytes(body);
    BytesFieldRoundTrip(number, body, []);
    assert field + [] == field;
    OneRecord(field, Record(number, BYTES, body));
  }

  lemma OneVarintField(number: nat, v: nat)
    requires 0 < number <= MAX_FIELD_NUMBER && v < TWO_64
    ensures Records(AppendTag(number, VARINT) + AppendVarint(v)) == Some([Record(number, VARINT, AppendVarint(v))])
  {
    var field := AppendTag(number, VARINT) + AppendVarint(v);
    VarintFieldRoundTrip(number, v, []);
    assert field + [] == field;
    OneRecord(field, Record(number, VARINT, AppendVarint(v)));
  }

  lemma FieldIsShort(number: nat, typ: nat, v: nat)
    requires number < 16 && typ < 8 && v < TWO_64
    ensures |AppendTag(number, typ)| <= 10 && |AppendVarint(v)| <= 10
  {
    RoomIs64();
    VarintIsShort(8 * number + typ, 0);
    VarintIsShort(v, 0);
  }

  // ----- the fields by their numbers -----

  /** What the last field with this number carries, or nothing when there is no such field. */
  ghost predicate Gives(rs: seq<Record>, number: nat, body: Data) {
    if forall i :: 0 <= i < |rs| ==> rs[i].number != number then body == []
    else exists i :: 0 <= i < |rs| && IsLast(rs, number, i) && rs[i].body == body
  }

  ghost predicate IsLast(rs: seq<Record>, number: nat, i: nat)
    requires i < |rs|
  {
    rs[i].number == number && forall j :: i < j < |rs| ==> rs[j].number != number
  }

  lemma {:induction false} LastGives(rs: seq<Record>, number: nat)
    ensures Gives(rs, number, Last(rs, number))
    ensures Has(rs, number) <==> exists i :: 0 <= i < |rs| && rs[i].number == number
  {
    if rs != [] {
      var before, r := rs[..|rs| - 1], rs[|rs| - 1];
      LastGives(before, number);
      if r.number == number {
        assert IsLast(rs, number, |rs| - 1);
      } else if i :| 0 <= i < |before| && IsLast(before, number, i) && before[i].body == Last(before, number) {
        assert IsLast(rs, number, i);
      }
    }
  }

  /** The fields of an event: 1 the channel, which may not be empty, 2 the payload and 3 the content type. */
  lemma EventNumbers(data: Data, rs: seq<Record>)
    requires Records(data) == Some(rs)
    ensures Gives(rs, 1, DeliveryOf(rs).channel) && Gives(rs, 2, DeliveryOf(rs).payload)
    ensures Gives(rs, 3, DeliveryOf(rs).contentType)
    ensures EventAccepted(data) <==>
      && (forall i :: 0 <= i < |rs| && 1 <= rs[i].number <= 3 ==> rs[i].typ == 2)
      && (exists i :: 0 <= i < |rs| && IsLast(rs, 1, i) && rs[i].body != [])
  {
    LastGives(rs, 1);
    LastGives(rs, 2);
    LastGives(rs, 3);
  }

  /**
   The fields of an envelope: 1 the session ID, which may not be empty, and either 2, an event, or 3, the end of the
   session.
   */
  lemma EnvelopeNumbers(rs: seq<Record>)
    ensures Gives(rs, 1, Filled(rs).sessionID)
    ensures Filled(rs).sessionEnd <==> exists i :: 0 <= i < |rs| && rs[i].number == 3
    ensures Accepted(rs) <==>
      && (forall i :: 0 <= i < |rs| && 1 <= rs[i].number <= 3 ==> rs[i].typ == 2)
      && (forall i :: 0 <= i < |rs| && rs[i].number == 2 ==> EventAccepted(rs[i].body))
      && (exists i :: 0 <= i < |rs| && IsLast(rs, 1, i) && rs[i].body != [])
      && ((exists i :: 0 <= i < |rs| && rs[i].number == 2) <==> !(exists i :: 0 <= i < |rs| && rs[i].number == 3))
    ensures Refusal(rs) == SessionIDRequired <==> !(exists i :: 0 <= i < |rs| && IsLast(rs, 1, i) && rs[i].body != [])
    ensures Refusal(rs) == NoBody <==>
      && (exists i :: 0 <= i < |rs| && IsLast(rs, 1, i) && rs[i].body != [])
      && (forall i :: 0 <= i < |rs| ==> rs[i].number != 2 && rs[i].number != 3)
    ensures Refusal(rs) in {SessionIDRequired, NoBody, MultipleBodies}
    ensures Accepted(rs) ==> (Filled(rs).event.Some? <==> exists i :: 0 <= i < |rs| && rs[i].number == 2)
    ensures forall i :: 0 <= i < |rs| && IsLast(rs, 2, i) && Records(rs[i].body).Some? ==>
      Filled(rs).event == Some(DeliveryOf(Records(rs[i].body).value))
  {
    hide EventAccepted, Records, Gives, IsLast, TypesMatch;
    LastGives(rs, 1);
    LastGives(rs, 3);
    GivesSome(rs, 1);
    EventGiven(rs);
    TypesByNumber(rs);
    if Accepted(rs) { EventFilled(rs); }
  }

  /** Something is given for a number exactly if its last field carries something. */
  lemma GivesSome(rs: seq<Record>, number: nat)
    ensures Last(rs, number) != [] <==> exists i :: 0 <= i < |rs| && IsLast(rs, number, i) && rs[i].body != []
  {
    LastGives(rs, number);
  }

  lemma EventGiven(rs: seq<Record>)
    ensures Has(rs, 2) <==> exists i :: 0 <= i < |rs| && rs[i].number == 2
    ensures forall i :: 0 <= i < |rs| && IsLast(rs, 2, i) && Records(rs[i].body).Some? ==>
      Filled(rs).event == Some(DeliveryOf(Records(rs[i].body).value))
  {
    hide Records;
    LastGives(rs, 2);
  }

  lemma TypesByNumber(rs: seq<Record>)
    ensures TypesMatch(rs) <==> forall i :: 0 <= i < |rs| && 1 <= rs[i].number <= 3 ==> rs[i].typ == 2
    ensures EventsAccepted(rs) <==> forall i :: 0 <= i < |rs| && rs[i].number == 2 ==> EventAccepted(rs[i].body)
  {
    hide EventAccepted;
    forall r | r in rs ensures exists i :: 0 <= i < |rs| && rs[i] == r {
    }
  }

  // ----- where reading stops -----

  /** Reading these records, one after the other, leaves this rest. */
  ghost predicate Reads(data: Data, rs: seq<Record>, rest: Data) {
    if rs == [] then rest == data
    else
      && FirstRecord(data).Some? && FirstRecord(data).value.0 == rs[0]
      && Reads(data[FirstRecord(data).value.1..], rs[1..], rest)
  }

  /** What is wrong with the field at the start of the data, in an event or an envelope. */
  ghost predicate BadField(data: Data, e: DecodeError) {
    && data != []
    && if ConsumeTag(data).None? then e == Malformed
       else if 1 <= ConsumeTag(data).value.number <= 3 && ConsumeTag(data).value.typ != 2
       then e == WrongWireType(ConsumeTag(data).value.number)
       else FirstRecord(data).None? && e == Malformed
  }

  /** The data start with an event that is not acceptable, for this reason. */
  ghost predicate BadEvent(data: Data, e: DecodeError) {
    && data != [] && FirstRecord(data).Some?
    && FirstRecord(data).value.0.number == 2 && FirstRecord(data).value.0.typ == 2
    && !EventAccepted(FirstRecord(data).value.0.body) && e == EventRefusal(FirstRecord(data).value.0.body)
  }

  ghost predicate EventStops(data: Data, rs: seq<Record>, rest: Data, e: DecodeError) {
    Reads(data, rs, rest) && TypesMatch(rs) && BadField(rest, e)
  }

  ghost predicate EnvelopeStops(data: Data, rs: seq<Record>, rest: Data, e: DecodeError) {
    Reads(data, rs, rest) && TypesMatch(rs) && EventsAccepted(rs) && (BadField(rest, e) || BadEvent(rest, e))
  }

  lemma FirstFault(data: Data)
    requires data != []
    ensures forall e :: BadField(data, e) ==> EventFault(data) == Some(e) && EnvelopeFault(data) == Some(e)
    ensures forall e :: BadEvent(data, e) && (forall x :: !BadField(data, x)) ==> EnvelopeFault(data) == Some(e)
    ensures (forall e :: !BadField(data, e)) ==>
      && FirstRecord(data).Some?
      && (Known(FirstRecord(data).value.0) ==> FirstRecord(data).value.0.typ == 2)
      && EventFault(data) == EventFault(data[FirstRecord(data).value.1..])
      && ((forall e :: !BadEvent(data, e)) ==>
          && EnvelopeFault(data) == EnvelopeFault(data[FirstRecord(data).value.1..])
          && (FirstRecord(data).value.0.number == 2 ==> EventAccepted(FirstRecord(data).value.0.body)))
  {
    hide ConsumeTag, ConsumeFieldValue, EventAccepted, EventRefusal, EventFault, EnvelopeFault;
    EventFaultNext(data);
    EnvelopeFaultNext(data);
    if forall e :: !BadField(data, e) {
      assert !BadField(data, Malformed);
      if ConsumeTag(data).Some? { assert !BadField(data, WrongWireType(ConsumeTag(data).value.number)); }
      assert !BadEvent(data, EventRefusal(FirstRecord(data).value.0.body))
          || EnvelopeFault(data) == Some(EventRefusal(FirstRecord(data).value.0.body));
    }
  }

  lemma NothingToRead()
    ensures FirstRecord([]).None? && EventFault([]).None? && EnvelopeFault([]).None?
  {
  }

  /** An event is at fault, and refused for that, exactly if reading fields that it may have leaves a bad one first. */
  lemma EventFaultMeans(data: Data, e: DecodeError)
    ensures EventFault(data) == Some(e) <==> exists rs, rest :: EventStops(data, rs, rest, e)
    ensures e != ChannelRequired ==> (EventRefusal(data) == e <==> exists rs, rest :: EventStops(data, rs, rest, e))
  {
    if EventFault(data) == Some(e) { var rs, rest := FindEventStop(data, e); }
    forall rs, rest | EventStops(data, rs, rest, e) ensures EventFault(data) == Some(e) {
      EventStopDecides(data, rs, rest, e);
    }
  }

  lemma {:induction false} FindEventStop(data: Data, e: DecodeError) returns (rs: seq<Record>, rest: Data)
    requires EventFault(data) == Some(e)
    ensures EventStops(data, rs, rest, e)
  {
    hide ConsumeTag, ConsumeFieldValue, EventFault, FirstRecord;
    NothingToRead();
    FirstFault(data);
    if x :| BadField(data, x) {
      rs, rest := [], data;
    } else {
      var first := FirstRecord(data).value;
      rs, rest := FindEventStop(data[first.1..], e);
      rs := [first.0] + rs;
      assert rs[1..] + [] == rs[1..];
    }
  }

  lemma {:induction false} EventStopDecides(data: Data, rs: seq<Record>, rest: Data, e: DecodeError)
    requires EventStops(data, rs, rest, e)
    ensures EventFault(data) == Some(e)
    decreases |rs|
  {
    hide ConsumeTag, ConsumeFieldValue, EventFault, FirstRecord;
    NothingToRead();
    FirstFault(data);
    if rs != [] {
      assert rs[0] in rs;
      GoodField(data);
      EventStopDecides(data[FirstRecord(data).value.1..], rs[1..], rest, e);
    }
  }

  lemma GoodField(data: Data)
    requires FirstRecord(data).Some? && (Known(FirstRecord(data).value.0) ==> FirstRecord(data).value.0.typ == 2)
    ensures data != [] && forall e :: !BadField(data, e)
  {
    hide ConsumeFieldValue;
  }

  /** An envelope is at fault exactly if reading acceptable fields leaves a bad field or a bad event first. */
  lemma EnvelopeFaultMeans(data: Data, e: DecodeError)
    ensures EnvelopeFault(data) == Some(e) <==> exists rs, rest :: EnvelopeStops(data, rs, rest, e)
  {
    if EnvelopeFault(data) == Some(e) { var rs, rest := FindEnvelopeStop(data, e); }
    forall rs, rest | EnvelopeStops(data, rs, rest, e) ensures EnvelopeFault(data) == Some(e) {
      EnvelopeStopDecides(data, rs, rest, e);
    }
  }

  lemma {:induction false} FindEnvelopeStop(data: Data, e: DecodeError) returns (rs: seq<Record>, rest: Data)
    requires EnvelopeFault(data) == Some(e)
    ensures EnvelopeStops(data, rs, rest, e)
  {
    hide ConsumeTag, ConsumeFieldValue, EventAccepted, EventRefusal, EnvelopeFault, FirstRecord;
    NothingToRead();
    FirstFault(data);
    rs, rest := [], data;
    if x :| BadField(data, x) {
    } else if x :| BadEvent(data, x) {
    } else {
      var first := FirstRecord(data).value;
      rs, rest := FindEnvelopeStop(data[first.1..], e);
      rs := [first.0] + rs;
      assert rs[1..] + [] == rs[1..];
    }
  }

  lemma {:induction false} EnvelopeStopDecides(data: Data, rs: seq<Record>, rest: Data, e: DecodeError)
    requires EnvelopeStops(data, rs, rest, e)
    ensures EnvelopeFault(data) == Some(e)
    decreases |rs|
  {
    hide ConsumeTag, ConsumeFieldValue, EventAccepted, EventRefusal, EnvelopeFault, FirstRecord;
    NothingToRead();
    FirstFault(data);
    if rs != [] {
      assert rs[0] in rs;
      GoodField(data);
      EnvelopeStopDecides(data[FirstRecord(data).value.1..], rs[1..], rest, e);
    } else if FirstRecord(data).Some? && BadEvent(data, e) {
      GoodField(data);
    }
  }
}
