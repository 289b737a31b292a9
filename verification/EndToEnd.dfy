/** The whole path of a message: pushed, numbered, completed, framed, delivered, and read field by field. */
module EndToEnd {
  import opened Text
  import opened Decimal
  import opened Completion
  import opened Framing
  import opened SequenceGate
  import opened HeaderScan
  import opened RoundTrip
  import Fields
  import Pusher
  import PusherRings
  import Splitter

  // ---------------------------------------------------------------- fields

  lemma {:induction false} AllBytesEndInSoh(soh: char, fields: seq<Fields.Field>)
    requires fields != []
    ensures var s := Fields.AllBytes(soh, fields);
            s != [] && s[|s| - 1] == soh
  {
    assert Fields.FieldBytes(soh, fields[|fields| - 1]) != [];
  }

  /** What expose hands out is a partial message. */
  lemma PartialOfIsPartial(soh: char, fields: seq<Fields.Field>)
    ensures IsPartial(soh, Fields.PartialOf(soh, fields))
    ensures var partial := Fields.PartialOf(soh, fields);
            partial[..|partial| - 3] == [soh] + Fields.AllBytes(soh, fields)
  {
    var all := Fields.AllBytes(soh, fields);
    var partial := Fields.PartialOf(soh, fields);
    Assoc([soh], all, "10=");
    if fields != [] {
      AllBytesEndInSoh(soh, fields);
    }
    assert partial[|partial| - 4] == soh;
    assert partial[|partial| - 4..] == [partial[|partial| - 4]] + partial[|partial| - 3..];
    assert partial[|partial| - 3..] == "10=";
  }

  /** Fields 35 and 34 and then the others. */
  function Sent(msgType: string, n: nat, fields: seq<Fields.Field>): (s: seq<Fields.Field>) {
    [Fields.Field(35, msgType), Fields.Field(34, Digits(n))] + fields
  }

  lemma SentBytes(soh: char, msgType: string, n: nat, fields: seq<Fields.Field>)
    ensures Fields.AllBytes(soh, Sent(msgType, n, fields))
            == "35=" + msgType + [soh] + ("34=" + Digits(n) + [soh]) + Fields.AllBytes(soh, fields)
  {
    var a, b := Fields.Field(35, msgType), Fields.Field(34, Digits(n));
    assert Digits(35) + "=" == "35=" && Digits(34) + "=" == "34=";
    Fields.AllBytesConcat(soh, [a, b], fields);
    assert [a, b][..1] == [a] && [a][..0] == [];
    assert Fields.AllBytes(soh, [a]) == [] + Fields.FieldBytes(soh, a) == Fields.FieldBytes(soh, a);
  }

  lemma SentIsWellFormed(soh: char, dataTags: set<int>, msgType: string, n: nat, fields: seq<Fields.Field>)
    requires !IsDigit(soh) && soh !in msgType && 34 !in dataTags && 35 !in dataTags
    requires Fields.WellFormed(soh, dataTags, fields)
    ensures Fields.WellFormed(soh, dataTags, Sent(msgType, n, fields))
  {
    var all := Sent(msgType, n, fields);
    forall i | 0 <= i < |all|
      ensures Fields.Readable(soh, dataTags, all, i)
    {
      if 2 <= i {
        assert Fields.Readable(soh, dataTags, fields, i - 2);
      }
    }
  }

  /** What BodyLength counts is exactly the fields 35, 34 and the appended ones. */
  lemma BodyIsFields(soh: char, msgType: string, n: nat, fields: seq<Fields.Field>)
    ensures IsPartial(soh, Fields.PartialOf(soh, fields))
    ensures Body(soh, msgType, Fields.PartialOf(soh, fields), n) == Fields.AllBytes(soh, Sent(msgType, n, fields))
  {
    hide Fields.AllBytes, Fields.PartialOf;
    var all, type35, tag34 := Fields.AllBytes(soh, fields), "35=" + msgType + [soh], "34=" + Digits(n);
    PartialOfIsPartial(soh, fields);
    SentBytes(soh, msgType, n, fields);
    Assoc(type35, "34=", Digits(n));
    Assoc(type35 + tag34, [soh], all);
    Assoc(type35, tag34, [soh]);
  }

  /** The completed message around its fields. */
  lemma CompletedLayout(cfg: Framing.Config, msgType: string, n: nat, fields: seq<Fields.Field>)
    returns (before: string, rest: string)
    ensures IsPartial(cfg.soh, Fields.PartialOf(cfg.soh, fields))
    ensures var o := Outgoing(msgType, Fields.PartialOf(cfg.soh, fields));
            && |before| == TypeOffset(cfg, LengthField(cfg, o, n)) - 3
            && Bytes(cfg, o, n) == before + Fields.AllBytes(cfg.soh, Sent(msgType, n, fields)) + ("10=" + rest)
  {
    hide Fields.AllBytes, Fields.PartialOf, Digits, Checksum, Body, Complete, Padded;
    var soh, partial := cfg.soh, Fields.PartialOf(cfg.soh, fields);
    BodyIsFields(soh, msgType, n, fields);
    CompleteIsConsistent(cfg.begin, soh, msgType, partial, n);
    var body := Body(soh, msgType, partial, n);
    before := cfg.begin + Digits(|body|) + [soh];
    var sum := Padded(Checksum(before + body), 3);
    rest := sum + [soh];
    Assoc(before + body, "10=", sum);
    Assoc(before + body, "10=" + sum, [soh]);
    Assoc("10=", sum, [soh]);
  }

  /**
   For every well formed list of fields, data fields with soh and '=' in them included: appended,
   exposed, completed with any number and then walked from the offset the splitter reports, they come
   back as 35, 34 and the same tags and values in order, and then 0.
   */
  lemma FieldRoundTrip(cfg: Framing.Config, dataTags: set<int>, msgType: string, n: nat, fields: seq<Fields.Field>)
    requires !IsDigit(cfg.soh) && cfg.soh !in msgType && 34 !in dataTags && 35 !in dataTags
    requires Fields.WellFormed(cfg.soh, dataTags, fields)
    ensures IsPartial(cfg.soh, Fields.PartialOf(cfg.soh, fields))
    ensures var o := Outgoing(msgType, Fields.PartialOf(cfg.soh, fields));
            Fields.Walk(cfg.soh, dataTags, Bytes(cfg, o, n), TypeOffset(cfg, LengthField(cfg, o, n)) - 3, Fields.None)
            == Fields.Walked(Sent(msgType, n, fields), Fields.NoMore)
  {
    var before, rest := CompletedLayout(cfg, msgType, n, fields);
    SentIsWellFormed(cfg.soh, dataTags, msgType, n, fields);
    Fields.WalkReadsBack(cfg.soh, dataTags, before, Sent(msgType, n, fields), rest);
  }

  // ---------------------------------------------------------------- from the three queues to the splitter's events

  function Messages(sink: seq<Pusher.Sent>): (msgs: seq<Outgoing>)
    ensures |msgs| == |sink|
  {
    seq(|sink|, i requires 0 <= i < |sink| => sink[i].msg)
  }

  /**
   The bytes the pusher wrote in any run on its three rings, whatever the interleaving of publishers,
   batches and pauses, cut into chunks any way at all and fed to a splitter that expects the pusher's
   numbers: one event for each of the sink's messages in order, and of every queue what was committed to
   its ring, in ring order.
   */
  method ReceiveRun(version: string, soh: char, isSession: string -> bool, n0: nat,
                    ghost cs: PusherRings.Configs, ghost states: seq<PusherRings.System>, ghost steps: seq<PusherRings.Step>,
                    ghost i: nat, chunks: seq<string>)
    returns (events: seq<Event>)
    requires ValidVersion(version, soh) && |version| <= 26
    requires PusherRings.IsSystemRun(cs, n0, states, steps) && i < |states| && n0 + |states[i].sink| < U64 - 1
    requires AllSendable(ConfigFor(version, soh, isSession), n0, Messages(states[i].sink))
    requires Concat(chunks) == Stream(ConfigFor(version, soh, isSession), n0, Messages(states[i].sink))
    ensures events == Events(ConfigFor(version, soh, isSession), n0, Messages(states[i].sink))
    ensures Pusher.Numbered(n0, states[i].sink)
    ensures forall q :: q in states[i].rings && Pusher.Only(states[i].sink, q) <= states[i].rings[q].log
  {
    assert forall q :: q in states[i].rings;
    hide Steps, Events, Stream, Fitting, Concat, AllSendable, ValidVersion, Messages;
    hide PusherRings.IsSystemRun, Pusher.Only, Pusher.Numbered;
    PusherRings.RingsAreNumberedInOrder(cs, n0, states, steps, i);
    PushPopRoundTrip(version, soh, isSession, n0, Messages(states[i].sink));
    ConfigForIsValid(version, soh, isSession);
    events := Splitter.Receive(ConfigFor(version, soh, isSession), n0, chunks);
  }

  /**
   A message built by appending fields, pushed and sent by a run of the pusher, if it and all before it
   fit, arrives as an event from which the fields are read back, behind its type and the number it was
   given.
   */
  lemma SentFieldsArrive(cfg: Framing.Config, n0: nat, sink: seq<Pusher.Sent>, k: nat,
                         dataTags: set<int>, fields: seq<Fields.Field>)
    requires Pusher.Numbered(n0, sink) && AllSendable(cfg, n0, Messages(sink)) && k < Fitting(cfg, n0, Messages(sink))
    requires !IsDigit(cfg.soh) && 34 !in dataTags && 35 !in dataTags
    requires sink[k].msg.partial == Fields.PartialOf(cfg.soh, fields)
    requires Fields.WellFormed(cfg.soh, dataTags, fields)
    ensures |Events(cfg, n0, Messages(sink))| == |sink|
    ensures var e := Events(cfg, n0, Messages(sink))[k];
            && e.Delivered? && e.seqNumber == sink[k].number && 3 <= e.typeOffset
            && Fields.Walk(cfg.soh, dataTags, e.msg, e.typeOffset - 3, Fields.None)
               == Fields.Walked(Sent(sink[k].msg.msgType, sink[k].number, fields), Fields.NoMore)
  {
    hide IsPartial, Bytes, Events, Fitting, Fields.Walk, Fields.WellFormed, Fields.PartialOf, LengthField, Sent;
    var o, n := sink[k].msg, sink[k].number;
    assert Messages(sink)[k] == o;
    assert Sendable(cfg, o, n0 + 1 + k);
    EventAt(cfg, n0, Messages(sink), k);
    FieldRoundTrip(cfg, dataTags, o.msgType, n, fields);
  }
}
