/**
 The payload converter chain: null, then base64 binaries, then deterministic JSON, tried in order of
 priority. JSON text itself is external and enters as a printer and a parser.
 */
module Converter {
  import opened Common
  import opened Base64
  import opened Json

  /** Metadata values are byte strings, all of them ASCII here, and are written as text. */
  datatype Payload = Payload(metadata: map<string, string>, data: seq<Byte>)

  datatype ConversionError =
    | DepthLimitExceeded(maxDepth: nat)
    | BinaryTooLarge(size: nat, maxSize: nat)
    | DeserializationFailed
    | NoConverterFound

  /** What one converter answers: a result, "not mine", or an error. */
  datatype Attempt<T> = Converted(value: T) | NotHandled | Failed(error: ConversionError)

  datatype Result<T> = Success(value: T) | Failure(error: ConversionError)

  /** `serde_json::to_vec` and `from_slice`. */
  datatype Codec = Codec(render: Json -> seq<Byte>, parse: seq<Byte> -> Option<Json>)

  /** What the printer makes of the canonical form, the parser turns back into it. */
  predicate ReadsBack(codec: Codec, v: Json) {
    codec.parse(codec.render(Canonicalize(v))) == Some(Canonicalize(v))
  }

  datatype Converter = NilConverter | BinaryConverter(maxSize: nat) | JsonConverter(maxDepth: nat, sortKeys: bool)

  function Encoding(c: Converter): string {
    match c
    case NilConverter => "binary/null"
    case BinaryConverter(_) => "binary/plain"
    case JsonConverter(_, _) => "json/plain"
  }

  function Priority(c: Converter): nat {
    match c
    case NilConverter => 10
    case BinaryConverter(_) => 20
    case JsonConverter(_, _) => 100
  }

  const NIL_PAYLOAD := Payload(map["encoding" := "binary/null", "sdk" := "elixir"], [])

  function BinaryPayload(data: seq<Byte>): Payload {
    Payload(map["encoding" := "binary/plain", "sdk" := "elixir"], data)
  }

  function JsonPayload(data: seq<Byte>): Payload {
    Payload(map["encoding" := "json/plain", "contentType" := "application/json", "sdk" := "elixir"], data)
  }

  function ToPayloadBy(c: Converter, codec: Codec, v: Json): Attempt<Payload> {
    match c
    case NilConverter =>
      if v.Null? then Converted(NIL_PAYLOAD) else NotHandled
    case BinaryConverter(maxSize) =>
      if !v.Str? then NotHandled
      else
        var bytes := Base64.Decode(v.s);
        if bytes.None? then NotHandled
        else if |bytes.value| > maxSize then Failed(BinaryTooLarge(|bytes.value|, maxSize))
        else Converted(BinaryPayload(bytes.value))
    case JsonConverter(maxDepth, sortKeys) =>
      if v.Null? then NotHandled
      else if !DepthOk(v, 0, maxDepth) then Failed(DepthLimitExceeded(maxDepth))
      else Converted(JsonPayload(codec.render(if sortKeys then Canonicalize(v) else v)))
  }

  predicate HasEncoding(p: Payload, encoding: string) {
    "encoding" in p.metadata && p.metadata["encoding"] == encoding
  }

  function FromPayloadBy(c: Converter, codec: Codec, p: Payload): Attempt<Json> {
    if !HasEncoding(p, Encoding(c)) then NotHandled
    else
      match c
      case NilConverter => Converted(Null)
      case BinaryConverter(_) => Converted(Str(Base64.Encode(p.data)))
      case JsonConverter(_, _) =>
        var v := codec.parse(p.data);
        if v.Some? then Converted(v.value) else Failed(DeserializationFailed)
  }

  // ----- The chain -----

  function InsertByPriority(c: Converter, cs: seq<Converter>): seq<Converter> {
    if cs == [] || Priority(c) <= Priority(cs[0]) then [c] + cs
    else [cs[0]] + InsertByPriority(c, cs[1..])
  }

  /** `CompositeConverter::new`: the stable sort by priority. */
  function Chain(cs: seq<Converter>): seq<Converter> {
    if cs == [] then [] else InsertByPriority(cs[0], Chain(cs[1..]))
  }

  /** The converters of one priority, in their order. */
  function OfPriority(cs: seq<Converter>, q: nat): seq<Converter> {
    if cs == [] then []
    else (if Priority(cs[0]) == q then [cs[0]] else []) + OfPriority(cs[1..], q)
  }

  ghost predicate InPriorityOrder(cs: seq<Converter>) {
    forall i, j :: 0 <= i < j < |cs| ==> Priority(cs[i]) <= Priority(cs[j])
  }

  ghost predicate NoneBefore(p: nat, cs: seq<Converter>) {
    forall i :: 0 <= i < |cs| ==> p <= Priority(cs[i])
  }

  lemma PrependKeepsOrder(c: Converter, cs: seq<Converter>)
    requires InPriorityOrder(cs) && NoneBefore(Priority(c), cs)
    ensures InPriorityOrder([c] + cs)
  {
  }

  lemma {:induction false} InsertKeepsBound(p: nat, c: Converter, cs: seq<Converter>)
    requires p <= Priority(c) && NoneBefore(p, cs)
    ensures NoneBefore(p, InsertByPriority(c, cs))
  {
    if cs != [] { InsertKeepsBound(p, c, cs[1..]); }
  }

  lemma {:induction false} InsertKeepsOrder(c: Converter, cs: seq<Converter>)
    requires InPriorityOrder(cs)
    ensures InPriorityOrder(InsertByPriority(c, cs))
  {
    if cs == [] || Priority(c) <= Priority(cs[0]) {
      PrependKeepsOrder(c, cs);
    } else {
      InsertKeepsOrder(c, cs[1..]);
      InsertKeepsBound(Priority(cs[0]), c, cs[1..]);
      PrependKeepsOrder(cs[0], InsertByPriority(c, cs[1..]));
    }
  }

  lemma {:induction false} InsertPermutes(c: Converter, cs: seq<Converter>)
    ensures multiset(InsertByPriority(c, cs)) == multiset(cs) + multiset{c}
  {
    if cs != [] {
      assert cs == [cs[0]] + cs[1..];
      InsertPermutes(c, cs[1..]);
    }
  }

  function IfPriority(c: Converter, q: nat): seq<Converter> {
    if Priority(c) == q then [c] else []
  }

  lemma OfPriorityPrepend(c: Converter, cs: seq<Converter>, q: nat)
    ensures OfPriority([c] + cs, q) == IfPriority(c, q) + OfPriority(cs, q)
  {
    assert ([c] + cs)[1..] == cs;
  }

  lemma OnlyOneHas(b: Converter, c: Converter, q: nat, rest: seq<Converter>)
    requires Priority(b) != Priority(c)
    ensures IfPriority(b, q) + (IfPriority(c, q) + rest) == IfPriority(c, q) + (IfPriority(b, q) + rest)
  {
  }

  lemma {:induction false} InsertIsStable(c: Converter, cs: seq<Converter>, q: nat)
    ensures OfPriority(InsertByPriority(c, cs), q) == IfPriority(c, q) + OfPriority(cs, q)
  {
    if cs == [] || Priority(c) <= Priority(cs[0]) {
      OfPriorityPrepend(c, cs, q);
    } else {
      InsertIsStable(c, cs[1..], q);
      OfPriorityPrepend(cs[0], InsertByPriority(c, cs[1..]), q);
      OnlyOneHas(cs[0], c, q, OfPriority(cs[1..], q));
    }
  }

  /** For every list of converters the chain is the stable sort by priority: ordered, and each priority as listed. */
  lemma {:induction false} ChainSortsStably(cs: seq<Converter>)
    ensures InPriorityOrder(Chain(cs)) && multiset(Chain(cs)) == multiset(cs)
    ensures forall q :: OfPriority(Chain(cs), q) == OfPriority(cs, q)
  {
    if cs != [] {
      ChainSortsStably(cs[1..]);
      assert cs == [cs[0]] + cs[1..];
      InsertKeepsOrder(cs[0], Chain(cs[1..]));
      InsertPermutes(cs[0], Chain(cs[1..]));
      forall q ensures OfPriority(Chain(cs), q) == OfPriority(cs, q) { InsertIsStable(cs[0], Chain(cs[1..]), q); }
    }
  }

  /** A converter that fails is skipped like one that does not handle the value. */
  function ToPayload(cs: seq<Converter>, codec: Codec, v: Json): Result<Payload> {
    if cs == [] then Failure(NoConverterFound)
    else
      var a := ToPayloadBy(cs[0], codec, v);
      if a.Converted? then Success(a.value) else ToPayload(cs[1..], codec, v)
  }

  /** One pass over the converters, the first result or error deciding. */
  function FirstAnswer(cs: seq<Converter>, codec: Codec, p: Payload): Attempt<Json> {
    if cs == [] then NotHandled
    else
      var a := FromPayloadBy(cs[0], codec, p);
      if a.NotHandled? then FirstAnswer(cs[1..], codec, p) else a
  }

  /** The pass that asks only converters whose encoding the payload names. */
  function NamedAnswer(cs: seq<Converter>, codec: Codec, p: Payload): Attempt<Json> {
    if cs == [] then NotHandled
    else if HasEncoding(p, Encoding(cs[0])) && !FromPayloadBy(cs[0], codec, p).NotHandled? then
      FromPayloadBy(cs[0], codec, p)
    else NamedAnswer(cs[1..], codec, p)
  }

  function FromPayload(cs: seq<Converter>, codec: Codec, p: Payload): Result<Json> {
    var named := if "encoding" in p.metadata then NamedAnswer(cs, codec, p) else NotHandled;
    var answer := if named.NotHandled? then FirstAnswer(cs, codec, p) else named;
    match answer
    case Converted(v) => Success(v)
    case Failed(e) => Failure(e)
    case NotHandled => Failure(NoConverterFound)
  }

  /** Selecting by name first never changes the outcome: the fallback pass alone would answer the same. */
  lemma {:induction false} NamedPassIsFirstPass(cs: seq<Converter>, codec: Codec, p: Payload)
    ensures NamedAnswer(cs, codec, p) == FirstAnswer(cs, codec, p)
  {
    if cs != [] { NamedPassIsFirstPass(cs[1..], codec, p); }
  }

  method ToPayloads(cs: seq<Converter>, codec: Codec, values: seq<Json>) returns (r: Result<seq<Payload>>)
    ensures r.Success? ==>
              && |r.value| == |values|
              && forall i :: 0 <= i < |values| ==> ToPayload(cs, codec, values[i]) == Success(r.value[i])
    ensures r.Failure? ==>
              exists i :: && 0 <= i < |values|
                          && ToPayload(cs, codec, values[i]) == Failure(r.error)
                          && forall j :: 0 <= j < i ==> ToPayload(cs, codec, values[j]).Success?
  {
    var payloads: seq<Payload> := [];
    for i := 0 to |values|
      invariant |payloads| == i
      invariant forall j :: 0 <= j < i ==> ToPayload(cs, codec, values[j]) == Success(payloads[j])
    {
      var p := ToPayload(cs, codec, values[i]);
      if p.Failure? { return Failure(p.error); }
      payloads := payloads + [p.value];
    }
    r := Success(payloads);
  }

  method FromPayloads(cs: seq<Converter>, codec: Codec, payloads: seq<Payload>) returns (r: Result<seq<Json>>)
    ensures r.Success? ==>
              && |r.value| == |payloads|
              && forall i :: 0 <= i < |payloads| ==> FromPayload(cs, codec, payloads[i]) == Success(r.value[i])
    ensures r.Failure? ==>
              exists i :: && 0 <= i < |payloads|
                          && FromPayload(cs, codec, payloads[i]) == Failure(r.error)
                          && forall j :: 0 <= j < i ==> FromPayload(cs, codec, payloads[j]).Success?
  {
    var values: seq<Json> := [];
    for i := 0 to |payloads|
      invariant |values| == i
      invariant forall j :: 0 <= j < i ==> FromPayload(cs, codec, payloads[j]) == Success(values[j])
    {
      var v := FromPayload(cs, codec, payloads[i]);
      if v.Failure? { return Failure(v.error); }
      values := values + [v.value];
    }
    r := Success(values);
  }

  // ----- The default chain -----

  const BINARY := BinaryConverter(1024 * 1024)
  const JSON := JsonConverter(32, true)
  const DEFAULT: seq<Converter> := [NilConverter, BINARY, JSON]

  /** However the three default converters are listed, `new` puts them into the same order. */
  lemma ChainOfDefaults(a: Converter, b: Converter, c: Converter)
    requires a in DEFAULT && b in DEFAULT && c in DEFAULT && a != b && b != c && a != c
    ensures Chain([a, b, c]) == DEFAULT
  {
    assert [a, b, c][1..] == [b, c] && [b, c][1..] == [c] && [c][1..] == [];
    var two := if Priority(b) <= Priority(c) then [b, c] else [c, b];
    assert Chain([c]) == [c];
    assert InsertByPriority(b, []) == [b];
    assert Chain([b, c]) == two;
    assert two[1..] == [two[1]] && [two[1]][1..] == [];
    assert InsertByPriority(a, []) == [a];
    assert InsertByPriority(a, [two[1]]) == if Priority(a) <= Priority(two[1]) then [a, two[1]] else [two[1], a];
  }

  lemma DefaultTails()
    ensures DEFAULT[1..] == [BINARY, JSON] && [BINARY, JSON][1..] == [JSON] && [JSON][1..] == []
  {
  }

  /** What one converter, of whatever limits, answers to a value. */
  lemma ConverterAnswers(c: Converter, codec: Codec, v: Json)
    ensures c.NilConverter? ==> (ToPayloadBy(c, codec, v).Converted? <==> v.Null?)
    ensures c.BinaryConverter? ==>
              ToPayloadBy(c, codec, v) ==
              if !v.Str? || Base64.Decode(v.s).None? then NotHandled
              else if |Base64.Decode(v.s).value| <= c.maxSize then
                Converted(Payload(map["encoding" := "binary/plain", "sdk" := "elixir"], Base64.Decode(v.s).value))
              else Failed(BinaryTooLarge(|Base64.Decode(v.s).value|, c.maxSize))
    ensures c.JsonConverter? ==>
              ToPayloadBy(c, codec, v) ==
              if v.Null? then NotHandled
              else if Height(v) <= c.maxDepth then
                Converted(Payload(
                  map["encoding" := "json/plain", "contentType" := "application/json", "sdk" := "elixir"],
                  codec.render(if c.sortKeys then Canonicalize(v) else v)))
              else Failed(DepthLimitExceeded(c.maxDepth))
  {
    if c.JsonConverter? { DepthOkIffHeight(v, 0, c.maxDepth); }
  }

  /** In any chain the first converter that takes a value converts it; errors of those before it do not count. */
  lemma {:induction false} FirstConverterWins(cs: seq<Converter>, codec: Codec, v: Json)
    ensures ToPayload(cs, codec, v) == Failure(NoConverterFound) <==>
            forall i :: 0 <= i < |cs| ==> !ToPayloadBy(cs[i], codec, v).Converted?
    ensures ToPayload(cs, codec, v) != Failure(NoConverterFound) ==>
              exists i :: && 0 <= i < |cs| && ToPayloadBy(cs[i], codec, v).Converted?
                          && ToPayload(cs, codec, v) == Success(ToPayloadBy(cs[i], codec, v).value)
                          && forall j :: 0 <= j < i ==> !ToPayloadBy(cs[j], codec, v).Converted?
  {
    if cs != [] && !ToPayloadBy(cs[0], codec, v).Converted? {
      FirstConverterWins(cs[1..], codec, v);
      var rest := cs[1..];
      assert forall i :: 0 <= i < |rest| ==> rest[i] == cs[i + 1];
      if i :| && 0 <= i < |rest| && ToPayloadBy(rest[i], codec, v).Converted?
              && ToPayload(rest, codec, v) == Success(ToPayloadBy(rest[i], codec, v).value)
              && forall j :: 0 <= j < i ==> !ToPayloadBy(rest[j], codec, v).Converted?
      {
        assert ToPayloadBy(cs[i + 1], codec, v).Converted?;
        forall j | 0 <= j < i + 1 ensures !ToPayloadBy(cs[j], codec, v).Converted? {
          if j > 0 { assert cs[j] == rest[j - 1]; }
        }
      } else {
        forall i | 0 <= i < |cs| ensures !ToPayloadBy(cs[i], codec, v).Converted? {
          if i > 0 { assert cs[i] == rest[i - 1]; }
        }
      }
    }
  }

  /** The base64 bytes behind a string small enough for the binary converter. */
  function SmallBinary(v: Json): Option<seq<Byte>> {
    var bytes := if v.Str? then Base64.Decode(v.s) else None;
    if bytes.Some? && |bytes.value| <= 1024 * 1024 then bytes else None
  }

  /** Neither null nor a small binary: such a value goes through JSON text. */
  predicate TravelsAsJson(v: Json) {
    !v.Null? && SmallBinary(v).None?
  }

  /** Which converter of the default chain takes a value. */
  lemma ToPayloadCases(codec: Codec, v: Json)
    ensures ToPayload(DEFAULT, codec, v) ==
            if v.Null? then Success(Payload(map["encoding" := "binary/null", "sdk" := "elixir"], []))
            else if SmallBinary(v).Some? then
              Success(Payload(map["encoding" := "binary/plain", "sdk" := "elixir"], SmallBinary(v).value))
            else if Height(v) <= 32 then
              Success(Payload(map["encoding" := "json/plain", "contentType" := "application/json", "sdk" := "elixir"],
                              codec.render(Canonicalize(v))))
            else Failure(NoConverterFound)
  {
    DefaultTails();
    DepthOkIffHeight(v, 0, 32);
    assert ToPayload([JSON], codec, v) ==
           if !v.Null? && Height(v) <= 32 then Success(JsonPayload(codec.render(Canonicalize(v))))
           else Failure(NoConverterFound);
    assert ToPayload([BINARY, JSON], codec, v) ==
           if SmallBinary(v).Some? then Success(BinaryPayload(SmallBinary(v).value)) else ToPayload([JSON], codec, v);
  }

  /** The default chain converts a value exactly when its height is at most 32. */
  lemma ConvertsIffShallow(codec: Codec, v: Json)
    ensures ToPayload(DEFAULT, codec, v).Success? <==> Height(v) <= 32
    ensures ToPayload(DEFAULT, codec, v).Failure? ==> ToPayload(DEFAULT, codec, v).error == NoConverterFound
  {
    ToPayloadCases(codec, v);
  }

  /** A payload is read by the one default converter whose encoding it carries. */
  lemma FromPayloadCases(codec: Codec, p: Payload)
    ensures FromPayload(DEFAULT, codec, p) ==
            if HasEncoding(p, "binary/null") then Success(Null)
            else if HasEncoding(p, "binary/plain") then Success(Str(Base64.Encode(p.data)))
            else if !HasEncoding(p, "json/plain") then Failure(NoConverterFound)
            else if codec.parse(p.data).Some? then Success(codec.parse(p.data).value)
            else Failure(DeserializationFailed)
  {
    DefaultTails();
    NamedPassIsFirstPass(DEFAULT, codec, p);
    assert FirstAnswer([JSON], codec, p) == FromPayloadBy(JSON, codec, p);
    assert FirstAnswer([BINARY, JSON], codec, p) ==
           if HasEncoding(p, "binary/plain") then FromPayloadBy(BINARY, codec, p) else FromPayloadBy(JSON, codec, p);
  }

  lemma EncodingsOfPayloads(data: seq<Byte>)
    ensures HasEncoding(NIL_PAYLOAD, "binary/null")
    ensures HasEncoding(BinaryPayload(data), "binary/plain") && !HasEncoding(BinaryPayload(data), "binary/null")
    ensures HasEncoding(JsonPayload(data), "json/plain")
    ensures !HasEncoding(JsonPayload(data), "binary/null") && !HasEncoding(JsonPayload(data), "binary/plain")
  {
    assert |"binary/null"| == 11 && |"binary/plain"| == 12 && |"json/plain"| == 10;
  }

  /** What the default chain reads back from each kind of payload it writes. */
  lemma ReadBack(codec: Codec, data: seq<Byte>)
    ensures FromPayload(DEFAULT, codec, NIL_PAYLOAD) == Success(Null)
    ensures FromPayload(DEFAULT, codec, BinaryPayload(data)) == Success(Str(Base64.Encode(data)))
    ensures FromPayload(DEFAULT, codec, JsonPayload(data)) ==
            if codec.parse(data).Some? then Success(codec.parse(data).value) else Failure(DeserializationFailed)
  {
    EncodingsOfPayloads(data);
    FromPayloadCases(codec, NIL_PAYLOAD);
    FromPayloadCases(codec, BinaryPayload(data));
    FromPayloadCases(codec, JsonPayload(data));
  }

  /**
   The round trip and exactly when it holds: a converted value comes back as its canonical form, which is
   the same value up to key order, if and only if it does not travel as JSON or the JSON codec reproduces
   that very form. Base64 strings come back letter for letter.
   */
  lemma RoundTrip(codec: Codec, v: Json)
    requires Height(v) <= 32
    ensures ToPayload(DEFAULT, codec, v).Success?
    ensures FromPayload(DEFAULT, codec, ToPayload(DEFAULT, codec, v).value) == Success(Canonicalize(v))
            <==> !TravelsAsJson(v) || ReadsBack(codec, v)
    ensures Same(v, Canonicalize(v))
  {
    ToPayloadCases(codec, v);
    SameAsCanonical(v);
    if v.Null? {
      ReadBack(codec, []);
    } else if SmallBinary(v).Some? {
      ReadBack(codec, SmallBinary(v).value);
      EncodeOfDecode(v.s);
    } else {
      ReadBack(codec, codec.render(Canonicalize(v)));
    }
  }

  /** Equal leaves aside, sameness is decided by the canonical form, so the chosen converter agrees too. */
  lemma SamePayload(codec: Codec, v: Json, w: Json)
    requires WellFormed(v) && WellFormed(w) && Same(v, w)
    ensures ToPayload(DEFAULT, codec, v) == ToPayload(DEFAULT, codec, w)
  {
    SameIsCanonicallyEqual(v, w);
    SameHeight(v, w);
    ToPayloadCases(codec, v);
    ToPayloadCases(codec, w);
    assert v.Str? ==> v == w;
    assert w.Str? ==> v == w;
  }

  /**
   Deterministic payloads: a convertible value shares its payload exactly with the values that are the
   same, given a codec that reproduces those of the two that travel as JSON.
   */
  lemma PayloadsAreDeterministic(codec: Codec, v: Json, w: Json)
    requires WellFormed(v) && WellFormed(w) && Height(v) <= 32
    requires (TravelsAsJson(v) ==> ReadsBack(codec, v)) && (TravelsAsJson(w) ==> ReadsBack(codec, w))
    ensures ToPayload(DEFAULT, codec, v) == ToPayload(DEFAULT, codec, w) <==> Same(v, w)
  {
    if Same(v, w) { SamePayload(codec, v, w); }
    if ToPayload(DEFAULT, codec, v) == ToPayload(DEFAULT, codec, w) {
      ConvertsIffShallow(codec, v);
      ConvertsIffShallow(codec, w);
      RoundTrip(codec, v);
      RoundTrip(codec, w);
      CanonicallyEqualIsSame(v, w);
    }
  }

  /** Whole argument lists make the round trip, element by element. */
  method RoundTripAll(codec: Codec, values: seq<Json>) returns (back: seq<Json>)
    requires forall i :: 0 <= i < |values| ==>
                           Height(values[i]) <= 32 && (TravelsAsJson(values[i]) ==> ReadsBack(codec, values[i]))
    ensures |back| == |values|
    ensures forall i :: 0 <= i < |values| ==> back[i] == Canonicalize(values[i]) && Same(values[i], back[i])
  {
    forall i | 0 <= i < |values|
      ensures ToPayload(DEFAULT, codec, values[i]).Success?
      ensures FromPayload(DEFAULT, codec, ToPayload(DEFAULT, codec, values[i]).value) ==
              Success(Canonicalize(values[i]))
      ensures Same(values[i], Canonicalize(values[i]))
    {
      RoundTrip(codec, values[i]);
    }
    var ps := ToPayloads(DEFAULT, codec, values);
    var vs := FromPayloads(DEFAULT, codec, ps.value);
    back := vs.value;
  }
}
