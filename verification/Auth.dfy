/** The authentication continuation machine. Hashes and RSA are functions nothing is known about. */
module Auth {
  import opened Bytes
  import opened Protocol
  import R = ResultSet

  datatype Plugin =
    | MysqlNativePassword
    | CachingSha2Password
    | Sha256Password
    | MysqlClearPassword
    | OtherPlugin(name: Bytes)

  function Ascii(s: string): Bytes { seq(|s|, i requires 0 <= i < |s| => s[i] as int % 256) }

  function PluginFromBytes(name: Bytes): Plugin {
    if name == Ascii("mysql_native_password") then MysqlNativePassword
    else if name == Ascii("caching_sha2_password") then CachingSha2Password
    else if name == Ascii("sha256_password") then Sha256Password
    else if name == Ascii("mysql_clear_password") then MysqlClearPassword
    else OtherPlugin(name)
  }

  datatype Crypto = Crypto(
    native: (Bytes, Bytes) -> Bytes,
    cachingSha2: (Bytes, Bytes) -> Bytes,
    rsa: (Bytes, Bytes, Bytes) -> Result<Bytes>)

  datatype Phase = Initial | CachingSha2FastSuccess | CachingSha2PublicKey | Sha256Phase

  datatype AuthState = NeedRead | Send | Success

  datatype State = State(
    phase: Phase,
    plugin: Plugin,
    salt: Bytes,
    publicKey: Option<Bytes>,
    serverStatus: nat,
    secure: bool,
    password: Bytes,
    sent: seq<Bytes>)

  function Sending(st: State, data: Bytes, phase: Phase): (State, Result<AuthState>) {
    (st.(sent := st.sent + [data], phase := phase), Ok(AuthState.Send))
  }

  const PLUGIN_ERROR := OperationalError(CR_AUTH_PLUGIN_ERR)

  function WithoutTrailingNul(b: Bytes): Bytes {
    if b != [] && b[|b| - 1] == 0 then b[..|b| - 1] else b
  }

  /** A NUL-terminated string at `pos` and the position after it; without a NUL nothing is consumed. */
  function ReadString(d: Bytes, pos: nat): (Bytes, nat)
    requires pos <= |d|
  {
    var end := FindNul(d, pos);
    if end < |d| then (d[pos..end], end + 1) else ([], pos)
  }

  function FindNul(d: Bytes, pos: nat): (i: nat)
    requires pos <= |d|
    ensures pos <= i <= |d| && (i < |d| ==> d[i] == 0) && forall k :: pos <= k < i ==> d[k] != 0
    decreases |d| - pos
  {
    if pos == |d| || d[pos] == 0 then pos else FindNul(d, pos + 1)
  }

  // ---------------------------------------------------------------- the steps

  function AuthSwitch(st: State, plugin: Plugin, salt: Bytes, cr: Crypto): (State, Result<AuthState>) {
    var st1 := st.(plugin := plugin);
    match plugin
    case MysqlNativePassword => Sending(st1, cr.native(st.password, salt), Initial)
    case CachingSha2Password => Sending(st1, cr.cachingSha2(st.password, salt), Initial)
    case Sha256Password =>
      var st2 := st1.(salt := salt);
      if st.secure then Sending(st2, st.password + [0], Initial)
      else if st.password == [] then Sending(st2, [0], Initial)
      else Sending(st2, [1], Sha256Phase)
    case MysqlClearPassword => Sending(st1, st.password + [0], Initial)
    case OtherPlugin(_) => (st1, Err(OperationalError(CR_AUTH_PLUGIN_CANNOT_LOAD)))
  }

  function CachingSha2Fast(st: State, p: Bytes): (State, Result<AuthState>) {
    if |p| < 2 then (st, Err(InternalError(CR_MALFORMED_PACKET)))
    else if p[1] == 3 then (st.(phase := CachingSha2FastSuccess), Ok(AuthState.NeedRead))
    else if p[1] != 4 then (st, Err(PLUGIN_ERROR))
    else if st.secure then Sending(st, st.password + [0], Initial)
    else Sending(st, [2], CachingSha2PublicKey)
  }

  function CachingSha2Key(st: State, p: Bytes, cr: Crypto): (State, Result<AuthState>) {
    if IsErrorPacket(p) then (st, Err(RaisedByServer(p)))
    else if !IsExtraAuthData(p) then (st, Err(PLUGIN_ERROR))
    else
      var st1 := st.(publicKey := Some(p[1..]));
      match cr.rsa(st.password, st.salt, p[1..])
      case Err(e) => (st1, Err(e))
      case Ok(data) => Sending(st1, data, Initial)
  }

  /** The sha256_password answer to the first extra packet. */
  function Sha256First(st: State, p: Bytes): (State, Result<AuthState>)
    requires p != []
  {
    var st1 := st.(salt := WithoutTrailingNul(p[1..]));
    if st.secure then Sending(st1, st.password + [0], Initial)
    else if st.password != [] then Sending(st1, [1], Sha256Phase)
    else Sending(st1, [0], Initial)
  }

  /** The sha256_password answer to the server's key. */
  function Sha256Key(st: State, p: Bytes, cr: Crypto): (State, Result<AuthState>) {
    if IsErrorPacket(p) then (st, Err(RaisedByServer(p)))
    else
      var st1 := if IsExtraAuthData(p) then st.(publicKey := Some(p[1..])) else st;
      if st.password == [] then Sending(st1, [], Initial)
      else if st1.publicKey.None? then (st1, Err(PLUGIN_ERROR))
      else match cr.rsa(st.password, st.salt, st1.publicKey.value)
        case Err(e) => (st1, Err(e))
        case Ok(data) => Sending(st1, data, Initial)
  }

  function InitialStep(st: State, p: Bytes, cr: Crypto): (State, Result<AuthState>) {
    if IsAuthSwitchRequest(p) then
      var (name, pos) := ReadString(p, 1);
      AuthSwitch(st, PluginFromBytes(name), WithoutTrailingNul(p[pos..]), cr)
    else if IsExtraAuthData(p) then
      match st.plugin
      case CachingSha2Password => CachingSha2Fast(st, p)
      case Sha256Password => Sha256First(st, p)
      case _ => (st, Err(PLUGIN_ERROR))
    else if IsErrorPacket(p) then (st, Err(RaisedByServer(p)))
    else (st, Ok(AuthState.Success))
  }

  function FastSuccessStep(st: State, p: Bytes): (State, Result<AuthState>) {
    if !IsOkPacket(p) then (st, Err(PLUGIN_ERROR))
    else match R.ParseOkAt(p)
      case Bad(_) => (st, Err(InternalError(CR_MALFORMED_PACKET)))
      case Got(ok, _) => (st.(serverStatus := ok.status, phase := Initial), Ok(AuthState.Success))
  }

  /** The response to one packet. */
  function Step(st: State, p: Bytes, cr: Crypto): (State, Result<AuthState>) {
    match st.phase
    case Initial => InitialStep(st, p, cr)
    case CachingSha2FastSuccess => FastSuccessStep(st, p)
    case CachingSha2PublicKey => CachingSha2Key(st, p, cr)
    case Sha256Phase => Sha256Key(st, p, cr)
  }

  // ---------------------------------------------------------------- the object

  class AuthConnection {
    const crypto: Crypto
    const secure: bool
    const password: Bytes
    var phase: Phase
    var plugin: Plugin
    var salt: Bytes
    var publicKey: Option<Bytes>
    var serverStatus: nat
    var sent: seq<Bytes>
    var received: seq<Bytes>

    function Snapshot(): State
      reads this
    {
      State(phase, plugin, salt, publicKey, serverStatus, secure, password, sent)
    }

    constructor (crypto: Crypto, secure: bool, password: Bytes, plugin: Plugin, salt: Bytes, publicKey: Option<Bytes>)
      ensures Snapshot() == State(Initial, plugin, salt, publicKey, 0, secure, password, []) && this.crypto == crypto
      ensures received == []
    {
      this.crypto, this.secure, this.password := crypto, secure, password;
      phase, this.plugin, this.salt, this.publicKey, serverStatus := Initial, plugin, salt, publicKey, 0;
      sent, received := [], [];
    }

    method WritePacket(data: Bytes)
      modifies this`sent
      ensures sent == old(sent) + [data]
    {
      sent := sent + [data];
    }

    /** Takes one packet and answers it. */
    method RequestAuthenticationContinue() returns (r: Result<AuthState>)
      modifies this
      ensures old(received) == [] ==> r == Err(NeedMoreData) && Snapshot() == old(Snapshot()) && received == []
      ensures old(received) != [] ==>
                (Snapshot(), r) == Step(old(Snapshot()), old(received)[0], crypto) && received == old(received)[1..]
    {
      if received == [] {
        return Err(NeedMoreData);
      }
      var p := received[0];
      received := received[1..];
      match phase {
        case Initial => r := ProcessAuthInitial(p);
        case CachingSha2FastSuccess =>
          if !IsOkPacket(p) {
            return Err(PLUGIN_ERROR);
          }
          var ok := R.ParseOkAt(p);
          if ok.Bad? {
            return Err(InternalError(CR_MALFORMED_PACKET));
          }
          serverStatus, phase := ok.value.status, Initial;
          r := Ok(AuthState.Success);
        case CachingSha2PublicKey => r := ProcessCachingSha2PublicKey(p);
        case Sha256Phase => r := ProcessSha256Continue(p);
      }
    }

    method ProcessAuthInitial(p: Bytes) returns (r: Result<AuthState>)
      requires phase == Initial
      modifies this
      ensures (Snapshot(), r) == InitialStep(old(Snapshot()), p, crypto) && received == old(received)
    {
      if IsAuthSwitchRequest(p) {
        var (name, pos) := ReadString(p, 1);
        plugin := PluginFromBytes(name);
        r := ProcessAuthSwitch(WithoutTrailingNul(p[pos..]));
        return;
      }
      if IsExtraAuthData(p) {
        match plugin {
          case CachingSha2Password => r := ProcessCachingSha2Fast(p);
          case Sha256Password => r := ProcessSha256Continue(p);
          case _ => r := Err(PLUGIN_ERROR);
        }
        return;
      }
      r := if IsErrorPacket(p) then Err(RaisedByServer(p)) else Ok(AuthState.Success);
    }

    method ProcessAuthSwitch(newSalt: Bytes) returns (r: Result<AuthState>)
      modifies this
      ensures (Snapshot(), r) == AuthSwitch(old(Snapshot()), old(plugin), newSalt, crypto) && received == old(received)
    {
      match plugin {
        case MysqlNativePassword => WritePacket(crypto.native(password, newSalt)); phase := Initial;
        case CachingSha2Password => WritePacket(crypto.cachingSha2(password, newSalt)); phase := Initial;
        case Sha256Password =>
          salt := newSalt;
          if secure {
            WritePacket(password + [0]);
            phase := Initial;
          } else if password == [] {
            WritePacket([0]);
            phase := Initial;
          } else {
            WritePacket([1]);
            phase := Sha256Phase;
          }
        case MysqlClearPassword => WritePacket(password + [0]); phase := Initial;
        case OtherPlugin(_) => return Err(OperationalError(CR_AUTH_PLUGIN_CANNOT_LOAD));
      }
      r := Ok(AuthState.Send);
    }

    method ProcessCachingSha2Fast(p: Bytes) returns (r: Result<AuthState>)
      requires IsExtraAuthData(p)
      modifies this
      ensures (Snapshot(), r) == CachingSha2Fast(old(Snapshot()), p) && received == old(received)
    {
      if |p| < 2 {
        return Err(InternalError(CR_MALFORMED_PACKET));
      }
      if p[1] == 3 {
        phase := CachingSha2FastSuccess;
        return Ok(AuthState.NeedRead);
      }
      if p[1] != 4 {
        return Err(PLUGIN_ERROR);
      }
      if secure {
        WritePacket(password + [0]);
        phase := Initial;
      } else {
        WritePacket([2]);
        phase := CachingSha2PublicKey;
      }
      r := Ok(AuthState.Send);
    }

    method ProcessCachingSha2PublicKey(p: Bytes) returns (r: Result<AuthState>)
      modifies this
      ensures (Snapshot(), r) == CachingSha2Key(old(Snapshot()), p, crypto) && received == old(received)
    {
      if IsErrorPacket(p) {
        return Err(RaisedByServer(p));
      }
      if !IsExtraAuthData(p) {
        return Err(PLUGIN_ERROR);
      }
      publicKey := Some(p[1..]);
      var data := crypto.rsa(password, salt, p[1..]);
      if data.Err? {
        return Err(data.error);
      }
      WritePacket(data.value);
      phase := Initial;
      r := Ok(AuthState.Send);
    }

    method ProcessSha256Continue(p: Bytes) returns (r: Result<AuthState>)
      requires phase == Initial ==> p != []
      modifies this
      ensures (Snapshot(), r) ==
              if old(phase) == Initial then Sha256First(old(Snapshot()), p) else Sha256Key(old(Snapshot()), p, crypto)
      ensures received == old(received)
    {
      if phase == Initial {
        salt := WithoutTrailingNul(p[1..]);
        if secure {
          WritePacket(password + [0]);
        } else if password != [] {
          WritePacket([1]);
          phase := Sha256Phase;
        } else {
          WritePacket([0]);
        }
        return Ok(AuthState.Send);
      }
      if IsErrorPacket(p) {
        return Err(RaisedByServer(p));
      }
      if IsExtraAuthData(p) {
        publicKey := Some(p[1..]);
      }
      var data: Bytes := [];
      if password != [] {
        if publicKey.None? {
          return Err(PLUGIN_ERROR);
        }
        var encrypted := crypto.rsa(password, salt, publicKey.value);
        if encrypted.Err? {
          return Err(encrypted.error);
        }
        data := encrypted.value;
      }
      WritePacket(data);
      phase := Initial;
      r := Ok(AuthState.Send);
    }
  }

  // ---------------------------------------------------------------- runs

  predicate LastSent(st: State, data: Bytes) { st.sent != [] && st.sent[|st.sent| - 1] == data }

  /** The key phases are entered only on an insecure link, with the matching plugin, right after its request. */
  predicate Inv(st: State) {
    && (st.phase == CachingSha2PublicKey ==> !st.secure && st.plugin == CachingSha2Password && LastSent(st, [2]))
    && (st.phase == Sha256Phase ==> !st.secure && st.plugin == Sha256Password && st.password != [] && LastSent(st, [1]))
    && (st.phase == CachingSha2FastSuccess ==> st.plugin == CachingSha2Password)
  }

  /** A step writes exactly one packet when it says Send, and none in any other outcome. */
  predicate WritesAsReported(st: State, st': State, r: Result<AuthState>) {
    if r == Ok(AuthState.Send) then |st'.sent| == |st.sent| + 1 && st.sent <= st'.sent else st'.sent == st.sent
  }

  lemma SwitchKeepsInv(st: State, plugin: Plugin, salt: Bytes, cr: Crypto)
    requires st.phase == Initial
    ensures var (st', r) := AuthSwitch(st, plugin, salt, cr); Inv(st') && WritesAsReported(st, st', r)
  {
  }

  lemma ExtraKeepsInv(st: State, p: Bytes)
    requires st.phase == Initial && IsExtraAuthData(p)
    ensures st.plugin == CachingSha2Password ==>
              var (st', r) := CachingSha2Fast(st, p); Inv(st') && WritesAsReported(st, st', r)
    ensures st.plugin == Sha256Password ==>
              var (st', r) := Sha256First(st, p); Inv(st') && WritesAsReported(st, st', r)
  {
  }

  lemma StepKeepsInv(st: State, p: Bytes, cr: Crypto)
    requires Inv(st)
    ensures var (st', r) := Step(st, p, cr);
            && Inv(st') && WritesAsReported(st, st', r) && st'.secure == st.secure && st'.password == st.password
            && (r.Err? ==> st'.phase == st.phase)
  {
    if st.phase == Initial {
      if IsAuthSwitchRequest(p) {
        var (name, pos) := ReadString(p, 1);
        SwitchKeepsInv(st, PluginFromBytes(name), WithoutTrailingNul(p[pos..]), cr);
      } else if IsExtraAuthData(p) {
        ExtraKeepsInv(st, p);
      }
    }
  }

  /** The state after any packets, going on after errors. */
  function RunPackets(st: State, ps: seq<Bytes>, cr: Crypto): State
    decreases |ps|
  {
    if ps == [] then st else RunPackets(Step(st, ps[0], cr).0, ps[1..], cr)
  }

  /** How many of the packets were answered with a packet. */
  function Answers(st: State, ps: seq<Bytes>, cr: Crypto): nat
    decreases |ps|
  {
    if ps == [] then 0
    else
      var (st', r) := Step(st, ps[0], cr);
      (if r == Ok(AuthState.Send) then 1 else 0) + Answers(st', ps[1..], cr)
  }

  /**
    * Over every run from the initial phase, for arbitrary packets and after errors too: the public-key phases are
    * reached only on an insecure link with the matching plugin and request, the sha256 key phase only with a
    * non-empty password, and the number of packets written is the number of steps that reported Send.
    */
  lemma {:induction false} AuthenticationRuns(st: State, ps: seq<Bytes>, cr: Crypto)
    requires Inv(st)
    ensures Inv(RunPackets(st, ps, cr)) && RunPackets(st, ps, cr).secure == st.secure
    ensures |RunPackets(st, ps, cr).sent| == |st.sent| + Answers(st, ps, cr)
    ensures st.sent <= RunPackets(st, ps, cr).sent
    decreases |ps|
  {
    if ps != [] {
      StepKeepsInv(st, ps[0], cr);
      AuthenticationRuns(Step(st, ps[0], cr).0, ps[1..], cr);
    }
  }

  /** On a secure link the password never goes through the public-key exchange. */
  lemma SecureRunsAvoidKeys(st: State, ps: seq<Bytes>, cr: Crypto)
    requires st.phase == Initial && st.secure
    ensures var end := RunPackets(st, ps, cr); end.phase == Initial || end.phase == CachingSha2FastSuccess
  {
    AuthenticationRuns(st, ps, cr);
  }

  /** The empty-password answer in the sha256 key phase is dead code. */
  lemma EmptyPasswordNeverInKeyPhase(st: State, ps: seq<Bytes>, cr: Crypto)
    requires st.phase == Initial
    ensures RunPackets(st, ps, cr).phase == Sha256Phase ==> RunPackets(st, ps, cr).password != []
  {
    AuthenticationRuns(st, ps, cr);
  }

  /** The server's side of a full authentication over an insecure link, after a switch. */
  function FullAuthentication(plugin: Plugin, key: Bytes): seq<Bytes> {
    if plugin == CachingSha2Password then [[1, 4], [1] + key] else [[1] + key]
  }

  /** The last packet sent once a switch has been followed by a full authentication. */
  lemma FullAuthenticationSends(st: State, plugin: Plugin, salt: Bytes, key: Bytes, cr: Crypto)
    requires st.phase == Initial && !st.secure && st.password != []
    requires plugin == CachingSha2Password || plugin == Sha256Password
    requires cr.rsa(st.password, st.salt, key).Ok? && cr.rsa(st.password, salt, key).Ok?
    ensures var st1 := AuthSwitch(st, plugin, salt, cr).0;
            var used := if plugin == Sha256Password then salt else st.salt;
            && LastSent(st1, if plugin == Sha256Password then [1] else cr.cachingSha2(st.password, salt))
            && LastSent(RunPackets(st1, FullAuthentication(plugin, key), cr), cr.rsa(st.password, used, key).value)
  {
    var st1 := AuthSwitch(st, plugin, salt, cr).0;
    var p: Bytes := [1] + key;
    assert p[1..] == key && [p][1..] == [];
    if plugin == CachingSha2Password {
      var both: seq<Bytes> := [[1, 4], p];
      assert both[1..] == [p];
      var st2 := Step(st1, [1, 4], cr).0;
      assert RunPackets(st2, [p], cr) == RunPackets(Step(st2, p, cr).0, [], cr);
    } else {
      assert RunPackets(st1, [p], cr) == RunPackets(Step(st1, p, cr).0, [], cr);
    }
  }

  /**
    * After a switch to caching_sha2_password the scramble uses the new salt but the state keeps the old one. So, for
    * any encryption that tells the two salts apart, the encrypted password is the one the switch asked for if and only
    * if the plugin is sha256_password or the salt did not change.
    */
  lemma SwitchSaltIsUsedExactly(st: State, plugin: Plugin, salt: Bytes, key: Bytes, cr: Crypto)
    requires st.phase == Initial && !st.secure && st.password != []
    requires plugin == CachingSha2Password || plugin == Sha256Password
    requires cr.rsa(st.password, st.salt, key).Ok? && cr.rsa(st.password, salt, key).Ok?
    requires st.salt != salt ==> cr.rsa(st.password, st.salt, key) != cr.rsa(st.password, salt, key)
    ensures var end := RunPackets(AuthSwitch(st, plugin, salt, cr).0, FullAuthentication(plugin, key), cr);
            LastSent(end, cr.rsa(st.password, salt, key).value) <==> plugin == Sha256Password || st.salt == salt
  {
    FullAuthenticationSends(st, plugin, salt, key, cr);
  }
}
