/** The server's greeting, Protocol::HandshakeV10. */
module Handshake {
  import opened Bytes
  import opened Protocol
  import Auth

  const PLUGIN_AUTH_BIT: nat := 0x8_0000

  predicate HasPluginAuth(capabilities: nat) { capabilities / PLUGIN_AUTH_BIT % 2 == 1 }

  /** What is known about the server. */
  datatype Info = Info(
    protocolVersion: byte,
    serverVersion: Bytes,
    threadId: nat,
    salt: Bytes,
    capabilities: nat,
    language: byte,
    status: nat,
    plugin: Auth.Plugin)

  const MALFORMED := OperationalError(CR_SERVER_HANDSHAKE_ERR)

  function Le(d: Bytes, i: nat, k: nat): nat
    requires i + k <= |d|
  {
    FromLittleEndian(d[i..i + k])
  }

  function SaltLen(declared: nat): nat {
    var n := if declared < 9 then 0 else declared - 9;
    if n < 12 then 12 else n
  }

  /** The plugin name at `i`, up to a NUL or the end. */
  function PluginAt(d: Bytes, i: nat): Bytes
    requires i <= |d|
  {
    d[i..Auth.FindNul(d, i)]
  }

  /** The last part: a byte to skip and, if announced, the plugin name. */
  function ParsePlugin(info: Info, d: Bytes, i: nat): Info {
    if i + 1 < |d| && HasPluginAuth(info.capabilities) then info.(plugin := Auth.PluginFromBytes(PluginAt(d, i + 1)))
    else info
  }

  /** The optional block after the lower capability flags. */
  function ParseExtended(info: Info, d: Bytes, i: nat): (Info, Result<()>) {
    if i + 6 > |d| then (ParsePlugin(info, d, i + 10), Ok(()))
    else
      var info1 := info.(language := d[i], status := Le(d, i + 1, 2),
                         capabilities := info.capabilities + 0x1_0000 * Le(d, i + 3, 2));
      var n := SaltLen(d[i + 5]);
      if i + 16 > |d| then (info1, Err(MALFORMED))
      else if i + 16 + n <= |d| then
        (ParsePlugin(info1.(salt := info.salt + d[i + 16..i + 16 + n]), d, i + 16 + n), Ok(()))
      else (ParsePlugin(info1, d, i + 16), Ok(()))
  }

  /** The fixed part after the version string. */
  function ParseFixed(info: Info, d: Bytes, i: nat): (Info, Result<()>) {
    if i + 4 > |d| then (info, Err(MALFORMED))
    else
      var info1 := info.(threadId := Le(d, i, 4));
      if i + 13 > |d| then (info1, Err(MALFORMED))
      else
        var info2 := info1.(salt := d[i + 4..i + 12]);
        if i + 15 > |d| then (info2, Err(MALFORMED))
        else ParseExtended(info2.(capabilities := Le(d, i + 13, 2)), d, i + 15)
  }

  /** Effect of a greeting on what is known; errors keep the fields read so far. */
  function ParseGreeting(info: Info, d: Bytes): (Info, Result<()>) {
    if d == [] then (info, Err(MALFORMED))
    else
      var info1 := info.(protocolVersion := d[0]);
      if |d| < 2 then (info1, Err(MALFORMED))
      else
        var end := Auth.FindNul(d, 1);
        if end == |d| then (info1, Err(MALFORMED))
        else ParseFixed(info1.(serverVersion := d[1..end]), d, end + 1)
  }

  class Server {
    var protocolVersion: byte
    var serverVersion: Bytes
    var threadId: nat
    var salt: Bytes
    var capabilities: nat
    var language: byte
    var status: nat
    var plugin: Auth.Plugin

    function Snapshot(): Info
      reads this
    {
      Info(protocolVersion, serverVersion, threadId, salt, capabilities, language, status, plugin)
    }

    constructor ()
      ensures Snapshot() == Info(0, [], 0, [], 0, 0, 0, Auth.MysqlNativePassword)
    {
      protocolVersion, serverVersion, threadId, salt, capabilities := 0, [], 0, [], 0;
      language, status, plugin := 0, 0, Auth.MysqlNativePassword;
    }

    /** Reads the greeting with a moving index. */
    method GetServerInformation(data: Bytes) returns (r: Result<()>)
      modifies this
      ensures (Snapshot(), r) == ParseGreeting(old(Snapshot()), data)
    {
      var i := 0;
      if i >= |data| {
        return Err(MALFORMED);
      }
      protocolVersion := data[i];
      i := i + 1;
      if i >= |data| {
        return Err(MALFORMED);
      }
      var serverEnd := Auth.FindNul(data, i);
      if serverEnd == |data| {
        return Err(MALFORMED);
      }
      serverVersion := data[i..serverEnd];
      i := serverEnd + 1;
      r := GetFixedPart(data, i);
    }

    method GetFixedPart(data: Bytes, start: nat) returns (r: Result<()>)
      modifies this
      ensures (Snapshot(), r) == ParseFixed(old(Snapshot()), data, start)
    {
      var i := start;
      if i + 4 > |data| {
        return Err(MALFORMED);
      }
      threadId := Le(data, i, 4);
      i := i + 4;
      if i + 9 > |data| {
        return Err(MALFORMED);
      }
      salt := data[i..i + 8];
      i := i + 9;
      if i + 2 > |data| {
        return Err(MALFORMED);
      }
      capabilities := Le(data, i, 2);
      i := i + 2;
      r := GetExtendedPart(data, i);
    }

    method GetExtendedPart(data: Bytes, start: nat) returns (r: Result<()>)
      modifies this
      ensures (Snapshot(), r) == ParseExtended(old(Snapshot()), data, start)
    {
      var i := start;
      if i + 6 <= |data| {
        language := data[i];
        status := Le(data, i + 1, 2);
        capabilities := capabilities + 0x1_0000 * Le(data, i + 3, 2);
        var saltLen := SaltLen(data[i + 5]);
        i := i + 6;
        if i + 10 > |data| {
          return Err(MALFORMED);
        }
        i := i + 10;
        if i + saltLen <= |data| {
          salt := salt + data[i..i + saltLen];
          i := i + saltLen;
        }
      } else {
        i := i + 10;
      }
      GetPlugin(data, i);
      r := Ok(());
    }

    method GetPlugin(data: Bytes, start: nat)
      modifies this
      ensures Snapshot() == ParsePlugin(old(Snapshot()), data, start)
    {
      var i := start;
      if i >= |data| {
        return;
      }
      i := i + 1;
      if HasPluginAuth(capabilities) && i < |data| {
        plugin := Auth.PluginFromBytes(PluginAt(data, i));
      }
    }
  }

  // ---------------------------------------------------------------- which packets are refused

  /** The plugin name is announced by bit 19 of the capabilities. */
  lemma PluginAuthBit(low: nat, bit: nat, high: nat)
    requires low < 524288 && bit < 2
    ensures HasPluginAuth(low + 524288 * bit + 1048576 * high) <==> bit == 1
  {
    var c := low + 524288 * bit + 1048576 * high;
    assert c / 524288 == bit + 2 * high;
  }

  /**
    * Exactly which packets are refused, all with the same error: an empty one, one whose version has no end, one that
    * stops before the lower capability flags are complete, and one that stops between the length of the salt and the
    * salt.
    */
  lemma RefusedExactly(info: Info, d: Bytes, nul: nat)
    requires nul >= 1 && (forall k :: 1 <= k < nul && k < |d| ==> d[k] != 0) && (nul < |d| ==> d[nul] == 0)
    ensures var r := ParseGreeting(info, d).1;
            && (r.Err? <==> |d| <= nul || |d| < nul + 16 || nul + 22 <= |d| < nul + 32)
            && (r.Err? ==> r.error == OperationalError(2012))
  {
    if |d| >= 2 {
      var end := Auth.FindNul(d, 1);
      if nul < |d| {
        assert end == nul;
      } else {
        assert end == |d|;
      }
    }
  }

  /** Whatever comes after: what has been read of the fixed part is kept, also when the packet is refused later. */
  lemma FixedPartIsKept(info: Info, d: Bytes, nul: nat)
    requires 1 <= nul < |d| && (forall k :: 1 <= k < nul ==> d[k] != 0) && d[nul] == 0
    ensures var i := ParseGreeting(info, d).0;
            && i.protocolVersion == d[0] && i.serverVersion == d[1..nul]
            && (|d| >= nul + 5 ==> i.threadId == FromLittleEndian(d[nul + 1..nul + 5]))
            && (|d| >= nul + 14 ==> d[nul + 5..nul + 13] <= i.salt)
            && (|d| >= nul + 22 ==> i.language == d[nul + 16] && i.status == FromLittleEndian(d[nul + 17..nul + 19]))
  {
    assert Auth.FindNul(d, 1) == nul;
  }

  /** Where the plugin name may start: after the whole second part of the salt, if it is there, and one byte. */
  function AfterSalt(d: Bytes, i: nat): nat
    requires i + 16 <= |d|
  {
    var n := if d[i + 5] < 21 then 12 else d[i + 5] - 9;
    if i + 16 + n <= |d| then i + 16 + n else i + 16
  }

  lemma SaltLenIs(declared: byte)
    ensures SaltLen(declared) == if declared < 21 then 12 else declared - 9
  {
  }

  /** The plugin at the end: one byte is skipped, and a name is read if it is announced and there is any of it. */
  function NamedPlugin(d: Bytes, next: nat, capabilities: nat, otherwise: Auth.Plugin): Auth.Plugin {
    if HasPluginAuth(capabilities) && next + 1 < |d|
    then Auth.PluginFromBytes(d[next + 1..Auth.FindNul(d, next + 1)]) else otherwise
  }

  lemma PluginExactly(info: Info, d: Bytes, next: nat)
    ensures ParsePlugin(info, d, next) == info.(plugin := NamedPlugin(d, next, info.capabilities, info.plugin))
  {
  }

  /**
    * The block after the lower capability flags, offset by offset. The salt's second part has max(12, L - 9) bytes and
    * is taken only if it is there completely.
    */
  lemma BlockExactly(info: Info, d: Bytes, i: nat)
    requires i + 16 <= |d|
    ensures var capabilities := info.capabilities + 65536 * FromLittleEndian(d[i + 3..i + 5]);
            ParseExtended(info, d, i) ==
            (info.(language := d[i], status := FromLittleEndian(d[i + 1..i + 3]), capabilities := capabilities,
                   salt := info.salt + d[i + 16..AfterSalt(d, i)],
                   plugin := NamedPlugin(d, AfterSalt(d, i), capabilities, info.plugin)), Ok(()))
  {
    SaltLenIs(d[i + 5]);
    var info1 := info.(language := d[i], status := Le(d, i + 1, 2),
                       capabilities := info.capabilities + 65536 * Le(d, i + 3, 2));
    var next := AfterSalt(d, i);
    PluginExactly(info1.(salt := info.salt + d[i + 16..next]), d, next);
    if next == i + 16 {
      assert info.salt + d[i + 16..next] == info.salt;
      assert info1.(salt := info.salt + d[i + 16..next]) == info1;
    }
  }

  lemma FixedThenBlock(info: Info, d: Bytes, nul: nat)
    requires 1 <= nul && nul + 16 <= |d| && (forall k :: 1 <= k < nul ==> d[k] != 0) && d[nul] == 0
    ensures var fixed := info.(protocolVersion := d[0], serverVersion := d[1..nul],
                               threadId := FromLittleEndian(d[nul + 1..nul + 5]), salt := d[nul + 5..nul + 13],
                               capabilities := FromLittleEndian(d[nul + 14..nul + 16]));
            ParseGreeting(info, d) == ParseExtended(fixed, d, nul + 16)
  {
    assert Auth.FindNul(d, 1) == nul;
  }

  /** Without the block only the fixed part is known. */
  lemma NoBlock(info: Info, d: Bytes, i: nat)
    requires i <= |d| < i + 6
    ensures ParseExtended(info, d, i) == (info, Ok(()))
  {
  }

  // ---------------------------------------------------------------- layout

  /** A greeting as the protocol lays it out; `declared` is the announced length of the authentication data. */
  datatype Greeting = Greeting(
    protocolVersion: byte,
    version: Bytes,
    threadId: nat,
    salt: Bytes,
    capLow: nat,
    language: byte,
    status: nat,
    capHigh: nat,
    declared: byte,
    reserved: Bytes,
    trailing: byte,
    pluginName: Bytes)

  predicate ValidGreeting(g: Greeting) {
    && 0 !in g.version && 0 !in g.pluginName
    && g.threadId < 0x1_0000_0000 && g.capLow < 0x1_0000 && g.capHigh < 0x1_0000 && g.status < 0x1_0000
    && |g.reserved| == 10
    && |g.salt| == 8 + SecondPart(g.declared) - 1
  }

  /** The protocol's length of the second salt part, trailing byte included: max(13, L - 8). */
  function SecondPart(declared: nat): nat { if declared < 21 then 13 else declared - 8 }

  function Capabilities(g: Greeting): nat { g.capLow + 0x1_0000 * g.capHigh }

  function EncodeName(g: Greeting): Bytes { if HasPluginAuth(Capabilities(g)) then g.pluginName + [0] else [] }

  function EncodeBlock(g: Greeting): Bytes
    requires |g.salt| >= 8
  {
    [g.language]
    + (LittleEndian(g.status, 2)
       + (LittleEndian(g.capHigh, 2) + ([g.declared] + (g.reserved + (g.salt[8..] + ([g.trailing] + EncodeName(g)))))))
  }

  function EncodeFixed(g: Greeting): Bytes
    requires |g.salt| >= 8
  {
    LittleEndian(g.threadId, 4) + (g.salt[..8] + ([0] + (LittleEndian(g.capLow, 2) + EncodeBlock(g))))
  }

  function EncodeGreeting(g: Greeting): Bytes
    requires |g.salt| >= 8
  {
    [g.protocolVersion] + (g.version + ([0] + EncodeFixed(g)))
  }

  /** max(12, L - 9) + 1 = max(13, L - 8): the reader takes the whole second part but its last byte. */
  lemma SaltLengthsAgree(declared: byte)
    ensures SaltLen(declared) + 1 == SecondPart(declared)
  {
  }

  lemma LeAt(d: Bytes, i: nat, v: nat, k: nat)
    requires v < Pow256(k) && At(d, i, LittleEndian(v, k))
    ensures Le(d, i, k) == v
  {
    LittleEndianRoundTrip(v, k);
  }

  lemma FindNulAfter(d: Bytes, i: nat, name: Bytes)
    requires 0 !in name && At(d, i, name + [0])
    ensures Auth.FindNul(d, i) == i + |name|
  {
    AtSplit(d, i, name, [0]);
    ByteAt(d, i + |name|, 0);
    forall k | i <= k < i + |name| ensures d[k] != 0 {
      assert d[k] == d[i..i + |name|][k - i];
      assert name[k - i] in name;
    }
  }

  /** Where the parts of the extended block stand. */
  predicate BlockAt(g: Greeting, d: Bytes, i: nat)
    requires ValidGreeting(g)
  {
    var n := SaltLen(g.declared);
    && i + 16 + n < |d| && |g.salt[8..]| == n
    && d[i] == g.language && Le(d, i + 1, 2) == g.status && Le(d, i + 3, 2) == g.capHigh
    && d[i + 5] == g.declared && d[i + 16..i + 16 + n] == g.salt[8..]
    && At(d, i + 16 + n, [g.trailing] + EncodeName(g)) && i + 16 + n + 1 + |EncodeName(g)| == |d|
  }

  lemma BlockLayout(g: Greeting, d: Bytes, i: nat)
    requires ValidGreeting(g) && At(d, i, EncodeBlock(g)) && i + |EncodeBlock(g)| == |d|
    ensures BlockAt(g, d, i)
  {
    PowersOf256();
    SaltLengthsAgree(g.declared);
    var b6 := [g.trailing] + EncodeName(g);
    var b5 := g.salt[8..] + b6;
    var b4 := g.reserved + b5;
    var b3 := [g.declared] + b4;
    var b2 := LittleEndian(g.capHigh, 2) + b3;
    var b1 := LittleEndian(g.status, 2) + b2;
    AtSplit(d, i, [g.language], b1);
    AtSplit(d, i + 1, LittleEndian(g.status, 2), b2);
    AtSplit(d, i + 3, LittleEndian(g.capHigh, 2), b3);
    AtSplit(d, i + 5, [g.declared], b4);
    AtSplit(d, i + 6, g.reserved, b5);
    AtSplit(d, i + 16, g.salt[8..], b6);
    LeAt(d, i + 1, g.status, 2);
    LeAt(d, i + 3, g.capHigh, 2);
    ByteAt(d, i, g.language);
    ByteAt(d, i + 5, g.declared);
  }

  lemma ByteAt(d: Bytes, i: nat, c: byte)
    requires At(d, i, [c])
    ensures d[i] == c
  {
    assert d[i] == d[i..i + 1][0];
  }

  lemma FixedLayout(g: Greeting, d: Bytes, i: nat)
    requires ValidGreeting(g) && At(d, i, EncodeFixed(g)) && i + |EncodeFixed(g)| == |d|
    ensures i + 15 <= |d| && Le(d, i, 4) == g.threadId && d[i + 4..i + 12] == g.salt[..8]
    ensures Le(d, i + 13, 2) == g.capLow
    ensures At(d, i + 15, EncodeBlock(g)) && i + 15 + |EncodeBlock(g)| == |d|
  {
    PowersOf256();
    var f3 := LittleEndian(g.capLow, 2) + EncodeBlock(g);
    var f2 := [0] + f3;
    var f1 := g.salt[..8] + f2;
    AtSplit(d, i, LittleEndian(g.threadId, 4), f1);
    AtSplit(d, i + 4, g.salt[..8], f2);
    AtSplit(d, i + 12, [0], f3);
    AtSplit(d, i + 13, LittleEndian(g.capLow, 2), EncodeBlock(g));
    LeAt(d, i, g.threadId, 4);
    LeAt(d, i + 13, g.capLow, 2);
  }

  /** What the client should know after the greeting `g`. */
  function Learned(info: Info, g: Greeting): Info {
    Info(g.protocolVersion, g.version, g.threadId, g.salt, Capabilities(g), g.language, g.status,
         if HasPluginAuth(Capabilities(g)) then Auth.PluginFromBytes(g.pluginName) else info.plugin)
  }

  /**
    * For every declared length: version, thread id, both capability halves, status, the full salt without its
    * trailing byte and the plugin name are recovered from the laid-out greeting.
    */
  lemma GreetingRoundTrip(info: Info, g: Greeting)
    requires ValidGreeting(g)
    ensures ParseGreeting(info, EncodeGreeting(g)) == (Learned(info, g), Ok(()))
  {
    var d, i := EncodeGreeting(g), 2 + |g.version|;
    GreetingLayout(g.protocolVersion, g.version, EncodeFixed(g));
    FindNulAfter(d, 1, g.version);
    FixedLayout(g, d, i);
    BlockLayout(g, d, i + 15);
    FixedReadsBack(info.(protocolVersion := g.protocolVersion, serverVersion := g.version), g, d, i);
  }

  lemma ExtendedReadsBack(info: Info, g: Greeting, d: Bytes, i: nat)
    requires ValidGreeting(g) && BlockAt(g, d, i)
    requires info.salt == g.salt[..8] && info.capabilities == g.capLow
    ensures ParseExtended(info, d, i) ==
            (info.(language := g.language, status := g.status, capabilities := Capabilities(g), salt := g.salt,
                   plugin := if HasPluginAuth(Capabilities(g)) then Auth.PluginFromBytes(g.pluginName)
                             else info.plugin), Ok(()))
  {
    var next := i + 16 + SaltLen(g.declared);
    NameReadsBack(g, d, next, info.plugin);
    BlockMeans(info, g, d, i, SaltLen(g.declared), NamedPlugin(d, next, Capabilities(g), info.plugin));
  }

  /** The same from where the parts stand. */
  lemma BlockMeans(info: Info, g: Greeting, d: Bytes, i: nat, n: nat, plugin: Auth.Plugin)
    requires ValidGreeting(g) && n == SaltLen(g.declared) && i + 16 + n < |d| && |g.salt[8..]| == n
    requires d[i] == g.language && Le(d, i + 1, 2) == g.status && Le(d, i + 3, 2) == g.capHigh && d[i + 5] == g.declared
    requires d[i + 16..i + 16 + n] == g.salt[8..]
    requires NamedPlugin(d, i + 16 + n, Capabilities(g), info.plugin) == plugin
    requires info.salt == g.salt[..8] && info.capabilities == g.capLow
    ensures ParseExtended(info, d, i) ==
            (info.(language := g.language, status := g.status, capabilities := Capabilities(g), salt := g.salt,
                   plugin := plugin), Ok(()))
  {
    SaltLenIs(g.declared);
    assert AfterSalt(d, i) == i + 16 + n;
    BlockExactly(info, d, i);
    assert g.salt[..8] + g.salt[8..] == g.salt;
  }

  lemma NameReadsBack(g: Greeting, d: Bytes, next: nat, otherwise: Auth.Plugin)
    requires ValidGreeting(g) && At(d, next, [g.trailing] + EncodeName(g)) && next + 1 + |EncodeName(g)| == |d|
    ensures NamedPlugin(d, next, Capabilities(g), otherwise) ==
            if HasPluginAuth(Capabilities(g)) then Auth.PluginFromBytes(g.pluginName) else otherwise
  {
    if HasPluginAuth(Capabilities(g)) {
      AtSplit(d, next, [g.trailing], g.pluginName + [0]);
      FindNulAfter(d, next + 1, g.pluginName);
      AtSplit(d, next + 1, g.pluginName, [0]);
    }
  }

  lemma FixedReadsBack(info: Info, g: Greeting, d: Bytes, i: nat)
    requires ValidGreeting(g) && BlockAt(g, d, i + 15) && Le(d, i, 4) == g.threadId && d[i + 4..i + 12] == g.salt[..8]
    requires Le(d, i + 13, 2) == g.capLow
    requires info.protocolVersion == g.protocolVersion && info.serverVersion == g.version
    ensures ParseFixed(info, d, i) == (Learned(info, g), Ok(()))
  {
    ExtendedReadsBack(info.(threadId := g.threadId, salt := g.salt[..8], capabilities := g.capLow), g, d, i + 15);
  }

  lemma GreetingLayout(v: byte, version: Bytes, fixed: Bytes)
    ensures var d := [v] + (version + ([0] + fixed));
            && d[0] == v && At(d, 1, version + [0]) && d[1..1 + |version|] == version
            && At(d, 2 + |version|, fixed) && 2 + |version| + |fixed| == |d|
  {
    var d := [v] + (version + ([0] + fixed));
    assert d == [v] + ((version + [0]) + fixed);
  }
}
