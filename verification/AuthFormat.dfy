/** What the client sends while it authenticates, in terms of the bytes the server sent. */
module AuthFormat {
  import opened Bytes
  import opened Protocol
  import opened Auth
  import R = ResultSet

  // ---------------------------------------------------------------- plugin names

  /** "mysql_native_password" */
  const NATIVE: Bytes :=
    [109, 121, 115, 113, 108, 95, 110, 97, 116, 105, 118, 101, 95, 112, 97, 115, 115, 119, 111, 114, 100]
  /** "caching_sha2_password" */
  const CACHING: Bytes :=
    [99, 97, 99, 104, 105, 110, 103, 95, 115, 104, 97, 50, 95, 112, 97, 115, 115, 119, 111, 114, 100]
  /** "sha256_password" */
  const SHA256: Bytes := [115, 104, 97, 50, 53, 54, 95, 112, 97, 115, 115, 119, 111, 114, 100]
  /** "mysql_clear_password" */
  const CLEAR: Bytes := [109, 121, 115, 113, 108, 95, 99, 108, 101, 97, 114, 95, 112, 97, 115, 115, 119, 111, 114, 100]

  lemma NativeBytes()
    ensures Ascii("mysql_native_password") == NATIVE
  {
  }

  lemma CachingBytes()
    ensures Ascii("caching_sha2_password") == CACHING
  {
  }

  lemma Sha256Bytes()
    ensures Ascii("sha256_password") == SHA256
  {
  }

  lemma ClearBytes()
    ensures Ascii("mysql_clear_password") == CLEAR
  {
  }

  /** The four plugins the client knows, by the bytes of their names. */
  lemma PluginNames(name: Bytes)
    ensures PluginFromBytes(name) ==
            if name == NATIVE then MysqlNativePassword
            else if name == CACHING then CachingSha2Password
            else if name == SHA256 then Sha256Password
            else if name == CLEAR then MysqlClearPassword
            else OtherPlugin(name)
  {
    NativeBytes();
    CachingBytes();
    Sha256Bytes();
    ClearBytes();
  }

  // ---------------------------------------------------------------- a switch

  /** A switch request: the plugin's name, a NUL, and what the plugin is given, usually a salt and a NUL. */
  function SwitchRequest(name: Bytes, given: Bytes): Bytes { [0xFE] + name + [0] + given }

  lemma NameIsRead(name: Bytes, given: Bytes)
    requires 0 !in name
    ensures ReadString(SwitchRequest(name, given), 1) == (name, |name| + 2)
    ensures SwitchRequest(name, given)[|name| + 2..] == given
  {
    var p := SwitchRequest(name, given);
    var end := FindNul(p, 1);
    assert p[|name| + 1] == 0;
    assert forall k :: 1 <= k < |name| + 1 ==> p[k] == name[k - 1];
    assert end == |name| + 1;
    assert p[1..end] == name;
  }

  /** One NUL at the end belongs to the packet, not to the salt. */
  lemma SaltIsRead(salt: Bytes)
    ensures WithoutTrailingNul(salt + [0]) == salt
    ensures salt == [] || salt[|salt| - 1] != 0 ==> WithoutTrailingNul(salt) == salt
  {
    assert (salt + [0])[..|salt|] == salt;
  }

  /** The state after sending `data`. */
  function After(st: State, data: Bytes, phase: Phase): (State, Result<AuthState>) {
    (st.(sent := st.sent + [data], phase := phase), Ok(AuthState.Send))
  }

  /**
    * The answer to a switch request, plugin by plugin, link by link. Every scramble is made with the salt of the
    * request; only sha256_password stores it.
    */
  lemma SwitchExactly(st: State, name: Bytes, salt: Bytes, cr: Crypto)
    requires st.phase == Initial && 0 !in name && |name| + |salt| >= 5
    ensures Step(st, SwitchRequest(name, salt + [0]), cr) ==
            if name == NATIVE then After(st.(plugin := MysqlNativePassword), cr.native(st.password, salt), Initial)
            else if name == CACHING then
              After(st.(plugin := CachingSha2Password), cr.cachingSha2(st.password, salt), Initial)
            else if name == SHA256 then
              var st1 := st.(plugin := Sha256Password, salt := salt);
              if st.secure then After(st1, st.password + [0], Initial)
              else if st.password == [] then After(st1, [0], Initial)
              else After(st1, [1], Sha256Phase)
            else if name == CLEAR then After(st.(plugin := MysqlClearPassword), st.password + [0], Initial)
            else (st.(plugin := OtherPlugin(name)), Err(OperationalError(2059)))
  {
    NameIsRead(name, salt + [0]);
    SaltIsRead(salt);
    PluginNames(name);
  }

  // ---------------------------------------------------------------- caching_sha2_password

  /** The result of the fast authentication: 3 is success, 4 asks for the full one, anything else is an error. */
  lemma FastExactly(st: State, p: Bytes, cr: Crypto)
    requires st.phase == Initial && st.plugin == CachingSha2Password && p != [] && p[0] == 1
    ensures Step(st, p, cr) ==
            if |p| < 2 then (st, Err(InternalError(2027)))
            else if p[1] == 3 then (st.(phase := CachingSha2FastSuccess), Ok(NeedRead))
            else if p[1] != 4 then (st, Err(OperationalError(2061)))
            else if st.secure then After(st, st.password + [0], Initial)
            else After(st, [2], CachingSha2PublicKey)
  {
  }

  /** After a fast success the server's OK packet is awaited, and its status taken over. */
  lemma FastSuccessExactly(st: State, p: Bytes, cr: Crypto)
    requires st.phase == CachingSha2FastSuccess
    ensures Step(st, p, cr) ==
            if |p| < 7 || p[0] != 0 then (st, Err(OperationalError(2061)))
            else match R.ParseOkAt(p)
              case Bad(_) => (st, Err(InternalError(2027)))
              case Got(ok, _) => (st.(serverStatus := ok.status, phase := Initial), Ok(Success))
  {
  }

  /** The server's key is stored, and the password encrypted with it and the stored salt. */
  lemma PublicKeyExactly(st: State, p: Bytes, cr: Crypto)
    requires st.phase == CachingSha2PublicKey
    ensures Step(st, p, cr) ==
            if p != [] && p[0] == 0xFF then (st, Err(RaisedByServer(p)))
            else if p == [] || p[0] != 1 then (st, Err(OperationalError(2061)))
            else match cr.rsa(st.password, st.salt, p[1..])
              case Err(e) => (st.(publicKey := Some(p[1..])), Err(e))
              case Ok(data) => After(st.(publicKey := Some(p[1..])), data, Initial)
  {
  }

  /** Full authentication over a secure link: the password itself, and a NUL. */
  lemma SecureFullAuthentication(st: State, salt: Bytes, cr: Crypto)
    requires st.phase == Initial && st.secure
    ensures var st1 := Step(st, SwitchRequest(CACHING, salt + [0]), cr).0;
            var st2 := Step(st1, [1, 4], cr).0;
            st2.sent == st.sent + [cr.cachingSha2(st.password, salt)] + [st.password + [0]] && st2.phase == Initial
  {
    assert 0 !in CACHING;
    SwitchExactly(st, CACHING, salt, cr);
    FastExactly(Step(st, SwitchRequest(CACHING, salt + [0]), cr).0, [1, 4], cr);
  }

  // ---------------------------------------------------------------- sha256_password

  /** A first extra packet: its salt is stored, and the password or a request for the key is sent. */
  lemma Sha256FirstExactly(st: State, salt: Bytes, cr: Crypto)
    requires st.phase == Initial && st.plugin == Sha256Password
    ensures Step(st, [1] + (salt + [0]), cr) ==
            var st1 := st.(salt := salt);
            if st.secure then After(st1, st.password + [0], Initial)
            else if st.password != [] then After(st1, [1], Sha256Phase)
            else After(st1, [0], Initial)
  {
    SaltIsRead(salt);
    assert ([1] + (salt + [0]))[1..] == salt + [0];
  }

  /**
    * The answer to the key request: a key in the packet is stored; without one the stored key is used, if there
    * is one.
    */
  lemma Sha256KeyExactly(st: State, p: Bytes, cr: Crypto)
    requires st.phase == Sha256Phase && st.password != []
    ensures Step(st, p, cr) ==
            if p != [] && p[0] == 0xFF then (st, Err(RaisedByServer(p)))
            else
              var st1 := if p != [] && p[0] == 1 then st.(publicKey := Some(p[1..])) else st;
              match st1.publicKey
              case None => (st1, Err(OperationalError(2061)))
              case Some(key) =>
                match cr.rsa(st.password, st.salt, key)
                case Err(e) => (st1, Err(e))
                case Ok(data) => After(st1, data, Initial)
  {
  }

  // ---------------------------------------------------------------- everything else

  /** Extra data for another plugin is an error, an ERR packet is raised, and any other packet is success. */
  lemma OtherPackets(st: State, p: Bytes, cr: Crypto)
    requires st.phase == Initial && !(|p| >= 8 && p[0] == 0xFE)
    ensures p != [] && p[0] == 1 && st.plugin != CachingSha2Password && st.plugin != Sha256Password ==>
              Step(st, p, cr) == (st, Err(OperationalError(2061)))
    ensures p != [] && p[0] == 0xFF ==> Step(st, p, cr) == (st, Err(RaisedByServer(p)))
    ensures p == [] || (p[0] != 1 && p[0] != 0xFF) ==> Step(st, p, cr) == (st, Ok(Success))
  {
  }
}
