/** What two servers tell each other first: a host, the ports of its protocols, and its properties. */
module Greeting {
  import opened Codec
  import opened Sequences

  type Text = seq<byte>

  datatype Port = Port(protocol: Text, number: nat)

  datatype Property = Property(name: Text, value: Text)

  datatype Hello = Hello(host: Text, ports: seq<Port>, properties: seq<Property>)

  predicate IsText(s: Text) {
    |s| < 0x1_0000_0000
  }

  predicate ArePorts(ports: seq<Port>) {
    forall port :: port in ports ==> IsText(port.protocol) && port.number < 0x1_0000
  }

  // What the program's own types hold.
  predicate IsHello(hello: Hello) {
    && IsText(hello.host)
    && ArePorts(hello.ports)
    && forall p :: p in hello.properties ==> IsText(p.name) && IsText(p.value)
  }

  // ----- writing -----

  function TextBytes(s: Text): (r: seq<byte>)
    ensures r != []
  {
    Encode7Bit(|s|) + s
  }

  function BigEndian16(n: nat): (r: seq<byte>)
    requires n < 0x1_0000
    ensures |r| == 2
  {
    [n / 256, n % 256]
  }

  function PortBytes(port: Port): seq<byte>
    requires port.number < 0x1_0000
  {
    TextBytes(port.protocol) + BigEndian16(port.number)
  }

  function PropertyBytes(property: Property): (r: seq<byte>)
    ensures r != []
  {
    TextBytes(property.name) + TextBytes(property.value)
  }

  function PortsBytes(ports: seq<Port>): seq<byte>
    requires ArePorts(ports)
  {
    if ports == [] then [] else PortBytes(ports[0]) + PortsBytes(ports[1..])
  }

  function PropertiesBytes(properties: seq<Property>): (r: seq<byte>)
    ensures properties != [] ==> r != []
  {
    if properties == [] then [] else PropertyBytes(properties[0]) + PropertiesBytes(properties[1..])
  }

  // What follows the host, the number of ports first, on eight bits.
  function AfterHost(hello: Hello): seq<byte>
    requires IsHello(hello)
  {
    [|hello.ports| % 256] + (PortsBytes(hello.ports) + PropertiesBytes(hello.properties))
  }

  function HelloBytes(hello: Hello): seq<byte>
    requires IsHello(hello)
  {
    TextBytes(hello.host) + AfterHost(hello)
  }

  // ----- reading -----

  function After(s: seq<byte>, n: nat): seq<byte> {
    if n <= |s| then s[n..] else []
  }

  ghost function ReadText(s: seq<byte>): (Text, seq<byte>) {
    var size := Decode7Bit(s) % 0x1_0000_0000;
    var rest := s[Length7Bit(s)..];
    (Padded(rest, size), After(rest, size))
  }

  ghost function ReadPort(s: seq<byte>): (Port, seq<byte>) {
    var (protocol, rest) := ReadText(s);
    var number := Padded(rest, 2);
    (Port(protocol, number[0] as int * 256 + number[1] as int), After(rest, 2))
  }

  ghost function ReadPorts(s: seq<byte>, n: nat): (r: (seq<Port>, seq<byte>))
    ensures |r.0| == n
    decreases n
  {
    if n == 0 then ([], s)
    else
      var (port, rest) := ReadPort(s);
      var (ports, rest') := ReadPorts(rest, n - 1);
      ([port] + ports, rest')
  }

  ghost function ReadProperty(s: seq<byte>): (r: (Property, seq<byte>))
    ensures s != [] ==> |r.1| < |s|
  {
    var (name, rest) := ReadText(s);
    var (value, rest') := ReadText(rest);
    (Property(name, value), rest')
  }

  ghost function ReadProperties(s: seq<byte>): seq<Property>
    decreases |s|
  {
    if s == [] then []
    else var (property, rest) := ReadProperty(s); [property] + ReadProperties(rest)
  }

  ghost function ReadHello(s: seq<byte>): Hello {
    var (host, rest) := ReadText(s);
    var (ports, rest') := ReadPorts(After(rest, 1), Padded(rest, 1)[0]);
    Hello(host, ports, ReadProperties(rest'))
  }

  // ----- round trip -----

  lemma TextReadsBack(s: Text, rest: seq<byte>)
    requires IsText(s)
    ensures ReadText(TextBytes(s) + rest) == (s, rest)
  {
    Encode7BitDecodes(|s|, s + rest);
    assert TextBytes(s) + rest == Encode7Bit(|s|) + (s + rest);
    assert (Encode7Bit(|s|) + (s + rest))[|Encode7Bit(|s|)|..] == s + rest;
  }

  lemma PortReadsBack(port: Port, rest: seq<byte>)
    requires IsText(port.protocol) && port.number < 0x1_0000
    ensures ReadPort(PortBytes(port) + rest) == (port, rest)
  {
    var number := BigEndian16(port.number);
    assert PortBytes(port) + rest == TextBytes(port.protocol) + (number + rest);
    TextReadsBack(port.protocol, number + rest);
    assert (number + rest)[..2] == number && (number + rest)[2..] == rest;
  }

  lemma ReadsFirstPort(port: Port, others: seq<byte>, ports: seq<Port>, rest: seq<byte>, bytes: seq<byte>)
    requires IsText(port.protocol) && port.number < 0x1_0000 && ReadPorts(others, |ports|) == (ports, rest)
    requires bytes == PortBytes(port) + others
    ensures ReadPorts(bytes, |ports| + 1) == ([port] + ports, rest)
  {
    PortReadsBack(port, others);
  }

  lemma PortsSplit(ports: seq<Port>, rest: seq<byte>)
    requires ArePorts(ports) && ports != []
    ensures PortsBytes(ports) + rest == PortBytes(ports[0]) + (PortsBytes(ports[1..]) + rest)
  {
  }

  lemma {:induction false} PortsReadBack(ports: seq<Port>, rest: seq<byte>, bytes: seq<byte>)
    requires ArePorts(ports) && bytes == PortsBytes(ports) + rest
    ensures ReadPorts(bytes, |ports|) == (ports, rest)
    decreases |ports|
  {
    if ports == [] {
      assert bytes == rest;
    } else {
      var others := PortsBytes(ports[1..]) + rest;
      PortsReadBack(ports[1..], rest, others);
      PortsSplit(ports, rest);
      ReadsFirstPort(ports[0], others, ports[1..], rest, bytes);
      assert [ports[0]] + ports[1..] == ports;
    }
  }

  lemma PropertyReadsBack(property: Property, rest: seq<byte>)
    requires IsText(property.name) && IsText(property.value)
    ensures ReadProperty(PropertyBytes(property) + rest) == (property, rest)
  {
    assert PropertyBytes(property) + rest == TextBytes(property.name) + (TextBytes(property.value) + rest);
    TextReadsBack(property.name, TextBytes(property.value) + rest);
    TextReadsBack(property.value, rest);
  }

  lemma {:induction false} PropertiesReadBack(properties: seq<Property>)
    requires forall p :: p in properties ==> IsText(p.name) && IsText(p.value)
    ensures ReadProperties(PropertiesBytes(properties)) == properties
  {
    if properties != [] {
      PropertyReadsBack(properties[0], PropertiesBytes(properties[1..]));
      PropertiesReadBack(properties[1..]);
    }
  }

  lemma HostReadsBack(hello: Hello)
    requires IsHello(hello)
    ensures var after := PortsBytes(hello.ports) + PropertiesBytes(hello.properties);
            var (ports, rest) := ReadPorts(after, |hello.ports| % 256);
            ReadHello(HelloBytes(hello)) == Hello(hello.host, ports, ReadProperties(rest))
  {
    TextReadsBack(hello.host, AfterHost(hello));
    var after := PortsBytes(hello.ports) + PropertiesBytes(hello.properties);
    assert AfterHost(hello)[1..] == after && AfterHost(hello)[..1] == [AfterHost(hello)[0]];
  }

  lemma HelloReads(hello: Hello, ports: seq<Port>, rest: seq<byte>)
    requires IsHello(hello)
    requires (ports, rest)
          == ReadPorts(PortsBytes(hello.ports) + PropertiesBytes(hello.properties), |hello.ports| % 256)
    ensures ReadHello(HelloBytes(hello)) == Hello(hello.host, ports, ReadProperties(rest))
  {
    HostReadsBack(hello);
  }

  lemma FewPortsReadBack(hello: Hello)
    requires IsHello(hello) && |hello.ports| < 256
    ensures ReadHello(HelloBytes(hello)) == hello
  {
    var properties := PropertiesBytes(hello.properties);
    assert |hello.ports| % 256 == |hello.ports|;
    PortsReadBack(hello.ports, properties, PortsBytes(hello.ports) + properties);
    HelloReads(hello, hello.ports, properties);
    PropertiesReadBack(hello.properties);
  }

  lemma ManyPortsAreCut(hello: Hello)
    requires IsHello(hello)
    ensures |ReadHello(HelloBytes(hello)).ports| == |hello.ports| % 256
  {
    HostReadsBack(hello);
  }

  /** A greeting is read as it was written if and only if it tells of fewer than 256 ports. */
  lemma HelloReadsBackExactly(hello: Hello)
    requires IsHello(hello)
    ensures ReadHello(HelloBytes(hello)) == hello <==> |hello.ports| < 256
  {
    ManyPortsAreCut(hello);
    if |hello.ports| < 256 {
      FewPortsReadBack(hello);
    }
  }

  // ----- the program -----

  function LearnPorts(known: map<Text, nat>, ports: seq<Port>): map<Text, nat>
    decreases |ports|
  {
    if ports == [] then known else LearnPorts(known[ports[0].protocol := ports[0].number], ports[1..])
  }

  function LearnProperties(known: map<Text, Text>, properties: seq<Property>): map<Text, Text>
    decreases |properties|
  {
    if properties == [] then known
    else LearnProperties(known[properties[0].name := properties[0].value], properties[1..])
  }

  // The last port told for a protocol is the one known, and other protocols keep theirs.
  lemma {:induction false} LastPortIsKnown(known: map<Text, nat>, ports: seq<Port>, i: nat)
    requires i < |ports| && forall j :: i < j < |ports| ==> ports[j].protocol != ports[i].protocol
    ensures var learnt := LearnPorts(known, ports);
            ports[i].protocol in learnt && learnt[ports[i].protocol] == ports[i].number
    decreases |ports|
  {
    var next, others := known[ports[0].protocol := ports[0].number], ports[1..];
    if i == 0 {
      OtherPortsStay(next, others, ports[0].protocol);
    } else {
      LastPortIsKnown(next, others, i - 1);
    }
  }

  lemma {:induction false} OtherPortsStay(known: map<Text, nat>, ports: seq<Port>, protocol: Text)
    requires forall i :: 0 <= i < |ports| ==> ports[i].protocol != protocol
    ensures var learnt := LearnPorts(known, ports);
            (protocol in learnt <==> protocol in known) && (protocol in known ==> learnt[protocol] == known[protocol])
    decreases |ports|
  {
    if ports != [] {
      OtherPortsStay(known[ports[0].protocol := ports[0].number], ports[1..], protocol);
    }
  }

  // So is the last value of a property.
  lemma {:induction false} LastValueIsKnown(known: map<Text, Text>, properties: seq<Property>, i: nat)
    requires i < |properties| && forall j :: i < j < |properties| ==> properties[j].name != properties[i].name
    ensures var learnt := LearnProperties(known, properties);
            properties[i].name in learnt && learnt[properties[i].name] == properties[i].value
    decreases |properties|
  {
    var next, others := known[properties[0].name := properties[0].value], properties[1..];
    if i == 0 {
      OtherValuesStay(next, others, properties[0].name);
    } else {
      LastValueIsKnown(next, others, i - 1);
    }
  }

  lemma {:induction false} OtherValuesStay(known: map<Text, Text>, properties: seq<Property>, name: Text)
    requires forall i :: 0 <= i < |properties| ==> properties[i].name != name
    ensures var learnt := LearnProperties(known, properties);
            (name in learnt <==> name in known) && (name in known ==> learnt[name] == known[name])
    decreases |properties|
  {
    if properties != [] {
      OtherValuesStay(known[properties[0].name := properties[0].value], properties[1..], name);
    }
  }

  method WriteText(writer: BinaryWriter, s: Text)
    requires writer.Valid() && !writer.fixed
    modifies writer`size, writer.buffer
    ensures writer.Valid() && writer.buffer.data == old(writer.buffer.data) + TextBytes(s)
  {
    writer.Write7BitEncoded(|s|);
    writer.WriteRaw(s);
  }

  method WritePort(writer: BinaryWriter, port: Port)
    requires writer.Valid() && !writer.fixed && port.number < 0x1_0000
    modifies writer`size, writer.buffer
    ensures writer.Valid() && writer.buffer.data == old(writer.buffer.data) + PortBytes(port)
  {
    WriteText(writer, port.protocol);
    writer.WriteRaw(BigEndian16(port.number));
  }

  method WritePorts(writer: BinaryWriter, ports: seq<Port>)
    requires writer.Valid() && !writer.fixed && ArePorts(ports)
    modifies writer`size, writer.buffer
    ensures writer.Valid() && writer.buffer.data == old(writer.buffer.data) + PortsBytes(ports)
  {
    var i := 0;
    while i < |ports|
      invariant writer.Valid() && i <= |ports|
      invariant writer.buffer.data + PortsBytes(ports[i..]) == old(writer.buffer.data) + PortsBytes(ports)
    {
      ghost var before := writer.buffer.data;
      PortsSplit(ports[i..], []);
      WritePort(writer, ports[i]);
      assert ports[i..][1..] == ports[i + 1..];
      Associates(before, PortBytes(ports[i]), PortsBytes(ports[i + 1..]));
      i := i + 1;
    }
  }

  method WriteProperties(writer: BinaryWriter, properties: seq<Property>)
    requires writer.Valid() && !writer.fixed
    modifies writer`size, writer.buffer
    ensures writer.Valid() && writer.buffer.data == old(writer.buffer.data) + PropertiesBytes(properties)
  {
    var i := 0;
    while i < |properties|
      invariant writer.Valid() && i <= |properties|
      invariant writer.buffer.data + PropertiesBytes(properties[i..])
             == old(writer.buffer.data) + PropertiesBytes(properties)
    {
      ghost var before := writer.buffer.data;
      WriteText(writer, properties[i].name);
      WriteText(writer, properties[i].value);
      assert properties[i..][1..] == properties[i + 1..];
      Associates(before, TextBytes(properties[i].name), TextBytes(properties[i].value));
      Associates(before, PropertyBytes(properties[i]), PropertiesBytes(properties[i + 1..]));
      i := i + 1;
    }
  }

  // sendHello, up to the message's body
  method WriteHello(writer: BinaryWriter, hello: Hello)
    requires writer.Valid() && !writer.fixed && IsHello(hello)
    modifies writer`size, writer.buffer
    ensures writer.Valid() && writer.buffer.data == old(writer.buffer.data) + HelloBytes(hello)
  {
    WriteText(writer, hello.host);
    writer.WriteRaw([|hello.ports| % 256]);
    WritePorts(writer, hello.ports);
    WriteProperties(writer, hello.properties);
  }

  method TakeText(reader: BinaryReader) returns (s: Text)
    requires reader.Valid()
    modifies reader`current
    ensures reader.Valid() && (s, reader.Rest()) == ReadText(old(reader.Rest()))
  {
    var size := reader.Read7BitEncoded();
    s := reader.ReadRaw(size);
  }

  method TakePort(reader: BinaryReader) returns (port: Port)
    requires reader.Valid()
    modifies reader`current
    ensures reader.Valid() && (port, reader.Rest()) == ReadPort(old(reader.Rest()))
  {
    var protocol := TakeText(reader);
    var number := reader.ReadRaw(2);
    port := Port(protocol, number[0] as int * 256 + number[1] as int);
  }

  // What n ports teach, and what follows them.
  ghost function Taken(known: map<Text, nat>, s: seq<byte>, n: nat): (map<Text, nat>, seq<byte>)
    decreases n
  {
    if n == 0 then (known, s)
    else var (port, rest) := ReadPort(s); Taken(known[port.protocol := port.number], rest, n - 1)
  }

  // The ports still to be taken come to the given end.
  ghost predicate ComesTo(known: map<Text, nat>, s: seq<byte>, n: nat, all: map<Text, nat>, end: seq<byte>) {
    Taken(known, s, n).0 == all && Taken(known, s, n).1 == end
  }

  lemma ComesToNext(known: map<Text, nat>, s: seq<byte>, n: nat, all: map<Text, nat>, end: seq<byte>)
    requires n > 0 && ComesTo(known, s, n, all, end)
    ensures var (port, rest) := ReadPort(s); ComesTo(known[port.protocol := port.number], rest, n - 1, all, end)
  {
  }

  lemma {:induction false} TakenIsLearnt(known: map<Text, nat>, s: seq<byte>, n: nat)
    ensures Taken(known, s, n) == (LearnPorts(known, ReadPorts(s, n).0), ReadPorts(s, n).1)
    decreases n
  {
    if n > 0 {
      var (port, rest) := ReadPort(s);
      var others := ReadPorts(rest, n - 1).0;
      TakenIsLearnt(known[port.protocol := port.number], rest, n - 1);
      assert ReadPorts(s, n).0 == [port] + others && ([port] + others)[1..] == others;
    }
  }

  method TakePorts(reader: BinaryReader, count: nat, known: map<Text, nat>) returns (ports: map<Text, nat>)
    requires reader.Valid()
    modifies reader`current
    ensures reader.Valid()
    ensures (ports, reader.Rest())
         == (LearnPorts(known, ReadPorts(old(reader.Rest()), count).0), ReadPorts(old(reader.Rest()), count).1)
  {
    TakenIsLearnt(known, reader.Rest(), count);
    ghost var (all, end) := Taken(known, reader.Rest(), count);
    ports := TakeAll(reader, count, known, all, end);
  }

  // The loop over the ports
  method TakeAll(reader: BinaryReader, count: nat, known: map<Text, nat>, ghost all: map<Text, nat>,
                 ghost end: seq<byte>)
    returns (ports: map<Text, nat>)
    requires reader.Valid() && ComesTo(known, reader.Rest(), count, all, end)
    modifies reader`current
    ensures reader.Valid() && ports == all && reader.Rest() == end
  {
    ports := known;
    var left := count;
    ghost var rest := reader.Rest();
    while left > 0
      invariant reader.Valid() && reader.Rest() == rest && ComesTo(ports, rest, left, all, end)
    {
      left := left - 1;
      ports, rest := TakeNext(reader, left, ports, rest, all, end);
    }
  }

  // One port, with `left` more after it.
  method TakeNext(reader: BinaryReader, ghost left: nat, known: map<Text, nat>, ghost s: seq<byte>,
                  ghost all: map<Text, nat>, ghost end: seq<byte>)
    returns (ports: map<Text, nat>, ghost rest: seq<byte>)
    requires reader.Valid() && reader.Rest() == s && ComesTo(known, s, left + 1, all, end)
    modifies reader`current
    ensures reader.Valid() && reader.Rest() == rest && ComesTo(ports, rest, left, all, end)
  {
    ComesToNext(known, s, left + 1, all, end);
    var port := TakePort(reader);
    ports := known[port.protocol := port.number];
    rest := reader.Rest();
  }

  method TakeProperties(reader: BinaryReader, known: map<Text, Text>) returns (properties: map<Text, Text>)
    requires reader.Valid()
    modifies reader`current
    ensures reader.Valid() && reader.Rest() == []
    ensures properties == LearnProperties(known, ReadProperties(old(reader.Rest())))
  {
    properties := known;
    while reader.Available() > 0
      invariant reader.Valid()
      invariant LearnProperties(properties, ReadProperties(reader.Rest()))
             == LearnProperties(known, ReadProperties(old(reader.Rest())))
      decreases |reader.Rest()|
    {
      ghost var (first, rest) := ReadProperty(reader.Rest());
      var name := TakeText(reader);
      var value := TakeText(reader);
      assert ([first] + ReadProperties(rest))[1..] == ReadProperties(rest);
      properties := properties[name := value];
    }
  }

  // The end of onReception, for a message without handler; `address` stands for an empty host.
  method TakeHello(reader: BinaryReader, address: Text, knownPorts: map<Text, nat>, known: map<Text, Text>)
    returns (host: Text, ports: map<Text, nat>, properties: map<Text, Text>)
    requires reader.Valid()
    modifies reader`current
    ensures reader.Valid() && reader.Rest() == []
    ensures var hello := ReadHello(old(reader.Rest()));
            && host == (if hello.host == [] then address else hello.host)
            && ports == LearnPorts(knownPorts, hello.ports)
            && properties == LearnProperties(known, hello.properties)
  {
    host := TakeText(reader);
    if host == [] {
      host := address;
    }
    var count := reader.Read8();
    ports := TakePorts(reader, count, knownPorts);
    properties := TakeProperties(reader, known);
  }
}
