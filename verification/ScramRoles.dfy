/**
 The two roles of SCRAM-SHA-256 over the state both of them keep, and a whole run between them.
 */
module ScramRoles {
  import opened Attributes
  import opened Scram
  import ServerFirst
  import opened Wrappers

  /** `od_scram_read_client_first_message` accepts `data`, or answers with one of its error codes. */
  function ClientFirstCode(data: string): int {
    if data == "" then -6
    else if data[0] == 'p' then -3
    else if data[0] != 'n' && data[0] != 'y' then -2
    else if |data| < 2 || data[1] != ',' then -2
    else if |data| < 3 || data[2] != ',' then -4
    else if |data| < 4 || data[3] == 'm' then -5
    else if NonceIn(data[3..]).None? then -1
    else 0
  }

  predicate Printable(s: string) {
    forall i :: 0 <= i < |s| ==> 0x21 as char <= s[i] <= 0x7E as char && s[i] != ','
  }

  predicate OnlyAttributes(data: string)
    decreases |data|
  {
    data == "" || (ReadAny(data).Some? && OnlyAttributes(ReadAny(data).value.rest))
  }

  /** The nonce of a client-first message without its header. */
  function NonceIn(bare: string): Option<string> {
    var n := ReadNamed(bare, 'n');
    if n.None? then None
    else
      var r := ReadNamed(n.value.rest, 'r');
      if r.None? || !Printable(r.value.value) || !OnlyAttributes(r.value.rest) then None
      else Some(r.value.value)
  }

  /** The part of `od_scram_read_client_first_message` behind the header. */
  method ReadNonce(bare: string) returns (nonce: Option<string>)
    ensures nonce == NonceIn(bare)
  {
    hide ReadNamed, ReadAny;
    var n := ReadAttribute(bare, 'n');
    if n.None? {
      return None;
    }
    var r := ReadAttribute(n.value.rest, 'r');
    if r.None? {
      return None;
    }
    var text := r.value.value;
    for i := 0 to |text|
      invariant forall j :: 0 <= j < i ==> 0x21 as char <= text[j] <= 0x7E as char && text[j] != ','
    {
      if text[i] < 0x21 as char || text[i] > 0x7E as char || text[i] == ',' {
        return None;
      }
    }
    var left := r.value.rest;
    while left != ""
      invariant OnlyAttributes(r.value.rest) == OnlyAttributes(left)
      decreases |left|
    {
      var a := ReadAnyAttribute(left);
      if a.None? {
        return None;
      }
      left := a.value.rest;
    }
    return Some(text);
  }

  /** The loop of `od_scram_read_client_final_message` over the attributes up to the proof. */
  method FindProof(data: string) returns (r: Option<(string, string, string)>)
    ensures r == ProofIn(data)
  {
    hide ReadAny;
    var left := data;
    var a := ReadAnyAttribute(left);
    while a.Some? && a.value.key != 'p'
      invariant a == ReadAny(left) && ProofIn(left) == ProofIn(data)
      decreases |left|
    {
      left := a.value.rest;
      a := ReadAnyAttribute(left);
    }
    if a.None? {
      return None;
    }
    return Some((left, a.value.value, a.value.rest));
  }

  /** The proof that shows knowledge of the key behind `salted`. */
  function Proof(crypto: Crypto, salted: Bytes, auth: string): (r: Bytes)
    requires Lawful(crypto)
    ensures |r| == KEY_LEN
  {
    var key := ClientKey(crypto, salted);
    Xor(key, crypto.Hmac(crypto.H(key), auth))
  }

  /** The first 32 bytes of `a` under the mask `b`. */
  predicate Masks(a: Bytes, b: Bytes, r: Bytes) {
    |r| == 32 && |a| >= 32 && |b| >= 32 && forall i :: 0 <= i < 32 ==> r[i] == a[i] ^ b[i]
  }

  lemma Printed(a: string, b: string, salt: string, count: string)
    ensures "r=" + (a + b) + [','] + ("s=" + salt + [','] + ("i=" + count)) ==
            "r=" + a + b + ",s=" + salt + ",i=" + count
  {
  }

  /** What the client makes of a server-first message. */
  datatype FinalMessage = Refused | DoesNotFit | Made(text: string)

  /** With a longer nonce, nonce and proof do not fit the 512 bytes that the final message is built in. */
  const FINAL_NONCE_LIMIT := 455

  /** Only the first bytes of the text are masked. */
  lemma XorPrefix(a: Bytes, more: Bytes, b: Bytes)
    requires |a| >= KEY_LEN && |b| >= KEY_LEN
    ensures Xor(a + more, b) == Xor(a, b)
  {
  }

  class State {
    const crypto: Crypto
    var clientNonce: string
    var clientFirst: string
    var clientFinal: string
    var serverNonce: string
    var serverFirst: string
    var saltedPassword: Bytes
    var iterations: nat
    var salt: string
    var storedKey: Bytes
    var serverKey: Bytes

    constructor (crypto: Crypto)
      ensures this.crypto == crypto
    {
      this.crypto := crypto;
      clientNonce, clientFirst, clientFinal, serverNonce, serverFirst, salt := "", "", "", "", "", "";
      saltedPassword, storedKey, serverKey := [], [], [];
      iterations := 0;
    }

    /** This state holds the verifier of `password` under the salt `bytes`. */
    ghost predicate Verifies(password: string, bytes: Bytes)
      reads this
    {
      var salted := Salted(crypto, password, bytes, iterations);
      && salt == crypto.Enc(bytes) && storedKey == crypto.H(ClientKey(crypto, salted))
      && serverKey == ServerKey(crypto, salted)
    }

    function Auth(): string
      reads this
    {
      AuthMessage(clientFirst, serverFirst, clientFinal)
    }

    /** `od_scram_init_from_plain_password` with the random salt `bytes`. */
    method InitFromPassword(password: string, bytes: Bytes)
      modifies this
      ensures Verifies(password, bytes) && iterations == 4096 && salt == crypto.Enc(bytes)
      ensures
        var salted := crypto.Hi(crypto.Prep(password), bytes, 4096);
        storedKey == crypto.H(crypto.Hmac(salted, "Client Key")) && serverKey == crypto.Hmac(salted, "Server Key")
    {
      iterations := DEFAULT_ITERATIONS;
      salt := crypto.Enc(bytes);
      var salted := crypto.Hi(crypto.Prep(password), bytes, iterations);
      storedKey := ClientKey(crypto, salted);
      storedKey := crypto.H(storedKey);
      serverKey := ServerKey(crypto, salted);
    }

    /** `od_scram_create_client_first_message` with the random bytes `nonce`. */
    method CreateClientFirst(nonce: Bytes) returns (message: string)
      modifies `clientNonce, `clientFirst
      ensures clientNonce == crypto.Enc(nonce) && clientFirst == "n=,r=" + clientNonce
      ensures message == "n,," + clientFirst
    {
      clientNonce := crypto.Enc(nonce);
      message := "n,,n=,r=" + clientNonce;
      clientFirst := message[3..];
    }

    /** `od_scram_read_client_first_message`. */
    method ReadClientFirst(data: string) returns (code: int)
      modifies `clientFirst, `clientNonce
      ensures code == ClientFirstCode(data)
      ensures code == -6 <==> data == ""
      ensures code == -3 <==> "p" <= data
      ensures code == -2 <==> data != "" && data[0] != 'p' && !("n," <= data || "y," <= data)
      ensures code == -4 <==> ("n," <= data || "y," <= data) && !("n,," <= data || "y,," <= data)
      ensures code == -5 <==> ("n,," <= data || "y,," <= data) && (|data| == 3 || data[3] == 'm')
      ensures if code == 0 then clientFirst == data[3..] && NonceIn(data[3..]) == Some(clientNonce)
              else clientFirst == old(clientFirst) && clientNonce == old(clientNonce)
    {
      if data == "" {
        return -6;
      }
      if data[0] == 'p' {
        return -3;
      } else if data[0] != 'n' && data[0] != 'y' {
        return -2;
      }
      if |data| < 2 || data[1] != ',' {
        return -2;
      }
      if |data| < 3 || data[2] == 'a' || data[2] != ',' {
        return -4;
      }
      if |data| < 4 || data[3] == 'm' {
        return -5;
      }
      var first := data[3..];
      var nonce := ReadNonce(first);
      if nonce.None? {
        return -1;
      }
      clientFirst, clientNonce := first, nonce.value;
      return 0;
    }

    /** `od_scram_create_server_first_message` with the random bytes `nonce` and whatever the buffer held. */
    method CreateServerFirst(nonce: Bytes, unset: string) returns (message: string)
      requires |unset| >= 2
      modifies `serverNonce, `serverFirst
      ensures serverNonce == crypto.Enc(nonce)
      ensures serverFirst == ServerFirst.Kept(clientNonce + serverNonce, salt, iterations)
      ensures message == ServerFirst.Sent(clientNonce + serverNonce, salt, iterations, unset)
      ensures
        var digits := Digits(iterations);
        message == "r=" + clientNonce + serverNonce + ",s=" + salt + ",i=" +
                   if |digits| >= 4 then digits[..4] else digits + [NUL] + unset[..3 - |digits|]
    {
      serverNonce := crypto.Enc(nonce);
      var size := 12 + |clientNonce| + |serverNonce| + |salt|;
      var text := ServerFirst.Text(clientNonce + serverNonce, salt, iterations);
      ServerFirst.TextLength(clientNonce + serverNonce, salt, iterations);
      if |text| >= size {
        serverFirst := text[..size];
        message := serverFirst;
        assert |text| == size ==> text[..size] == text;
      } else {
        serverFirst := text;
        message := text + [NUL] + unset[..size - |text| - 1];
      }
      ServerFirst.SentIs(clientNonce + serverNonce, salt, iterations, unset);
      Printed(clientNonce, serverNonce, salt, ServerFirst.CountSent(iterations, unset));
    }

    /** `read_server_first_message`. */
    method ReadServerFirst(data: string) returns (r: Option<Challenge>)
      modifies `serverFirst
      ensures r == ChallengeOf(crypto, clientNonce, data)
      ensures serverFirst == if r.Some? then data else ""
    {
      serverFirst := "";
      var nonce := ReadAttribute(data, 'r');
      if nonce.None? || |nonce.value.value| < |clientNonce| || nonce.value.value[..|clientNonce|] != clientNonce {
        return None;
      }
      var encoded := ReadAttribute(nonce.value.rest, 's');
      if encoded.None? || crypto.Dec(encoded.value.value).None? {
        return None;
      }
      var count := ReadAttribute(encoded.value.rest, 'i');
      if count.None? {
        return None;
      }
      var n, end := MemToL(count.value.value);
      var iterations := ToInt(n);
      if end != Some(|count.value.value|) || count.value.rest != "" || iterations < 1 {
        return None;
      }
      serverFirst := data;
      return Some(Challenge(nonce.value.value, crypto.Dec(encoded.value.value).value, iterations));
    }

    /** `calculate_client_proof`; the salt is taken up to its first zero byte. */
    method CalculateProof(password: string, bytes: Bytes, count: int) returns (proof: Bytes)
      requires Lawful(crypto)
      modifies `saltedPassword
      ensures saltedPassword == Salted(crypto, password, CBytes(bytes), count)
      ensures proof == Proof(crypto, saltedPassword, Auth())
      ensures
        var text := CStr(clientFirst) + "," + CStr(serverFirst) + "," + CStr(clientFinal);
        var key := crypto.Hmac(crypto.Hi(crypto.Prep(password), CBytes(bytes), count), "Client Key");
        Masks(key, crypto.Hmac(crypto.H(key), text), proof)
    {
      saltedPassword := crypto.Hi(crypto.Prep(password), CBytes(bytes), count);
      var key := ClientKey(crypto, saltedPassword);
      var signature := crypto.Hmac(crypto.H(key), Auth());
      proof := XorLoop(key, signature);
    }

    /** `od_scram_create_client_final_message`: nothing, the message, or what does not fit its buffer. */
    method CreateClientFinal(password: string, data: string) returns (message: FinalMessage)
      requires Lawful(crypto)
      modifies `serverFirst, `clientFinal, `saltedPassword
      ensures
        var c := ChallengeOf(crypto, clientNonce, data);
        if c.None? then message == Refused
        else if |c.value.nonce| > FINAL_NONCE_LIMIT then message == DoesNotFit
        else
          && serverFirst == data && clientFinal == "c=biws" + [','] + ("r=" + c.value.nonce)
          && saltedPassword == Salted(crypto, password, CBytes(c.value.salt), c.value.iterations)
          && message == Made(clientFinal + [','] + ("p=" + crypto.Enc(Proof(crypto, saltedPassword, Auth()))))
    {
      hide ChallengeOf, Lawful, Proof, Auth;
      var c := ReadServerFirst(data);
      if c.None? {
        return Refused;
      }
      if |c.value.nonce| > FINAL_NONCE_LIMIT {
        return DoesNotFit;
      }
      clientFinal := "c=biws" + [','] + ("r=" + c.value.nonce);
      var proof := CalculateProof(password, c.value.salt, c.value.iterations);
      message := Made(clientFinal + [','] + ("p=" + crypto.Enc(proof)));
    }

    /** `od_scram_read_client_final_message`. */
    method ReadClientFinal(data: string) returns (r: Option<Final>)
      modifies `clientFinal
      ensures r == FinalOf(crypto, data)
      ensures clientFinal == if r.Some? then r.value.text else old(clientFinal)
    {
      hide ReadNamed, ProofIn;
      var binding := ReadAttribute(data, 'c');
      if binding.None? || binding.value.value != "biws" {
        return None;
      }
      var nonce := ReadAttribute(binding.value.rest, 'r');
      if nonce.None? {
        return None;
      }
      var p := FindProof(nonce.value.rest);
      if p.None? {
        return None;
      }
      var (left, encoded, rest) := p.value;
      if crypto.Dec(encoded).None? || rest != "" {
        return None;
      }
      clientFinal := data[..|data| - |left| - 1];
      return Some(Final(clientFinal, nonce.value.value, crypto.Dec(encoded).value));
    }

    /** `od_scram_verify_final_nonce`. */
    method VerifyNonce(nonce: string) returns (ok: bool)
      ensures ok <==> nonce == clientNonce + serverNonce
    {
      if |nonce| != |clientNonce| + |serverNonce| {
        return false;
      }
      if nonce[..|clientNonce|] != clientNonce {
        return false;
      }
      if nonce[|clientNonce|..] != serverNonce {
        return false;
      }
      return true;
    }

    /**
     `od_scram_verify_client_proof`: 32 bytes are looked at, whatever the length of the proof; `beyond` is what
     lies behind it.
     */
    method VerifyProof(proof: Bytes, beyond: Bytes) returns (ok: bool)
      requires Lawful(crypto) && |beyond| >= KEY_LEN
      ensures ok <==> crypto.H(Xor(proof + beyond, crypto.Hmac(storedKey, Auth()))) == storedKey
      ensures |proof| >= KEY_LEN ==> (ok <==> crypto.H(Xor(proof, crypto.Hmac(storedKey, Auth()))) == storedKey)
      ensures
        var text := CStr(clientFirst) + "," + CStr(serverFirst) + "," + CStr(clientFinal);
        forall key: Bytes :: Masks(proof + beyond, crypto.Hmac(storedKey, text), key) ==>
          (ok <==> crypto.H(key) == storedKey)
    {
      var signature := crypto.Hmac(storedKey, Auth());
      var key := XorLoop(proof + beyond, signature);
      assert forall other: Bytes :: Masks(proof + beyond, signature, other) ==> other == key;
      if |proof| >= KEY_LEN {
        XorPrefix(proof, beyond, signature);
      }
      ok := crypto.H(key) == storedKey;
    }

    /** `od_scram_create_server_final_message`. */
    method CreateServerFinal() returns (message: string)
      ensures message == "v=" + crypto.Enc(crypto.Hmac(serverKey, Auth()))
      ensures
        var text := CStr(clientFirst) + "," + CStr(serverFirst) + "," + CStr(clientFinal);
        message == "v=" + crypto.Enc(crypto.Hmac(serverKey, text))
    {
      message := "v=" + crypto.Enc(crypto.Hmac(serverKey, Auth()));
    }

    /** `od_scram_verify_server_signature`. */
    method VerifyServerSignature(data: string) returns (ok: bool)
      requires Lawful(crypto)
      ensures
        var v := ReadNamed(data, 'v');
        ok <==> v.Some? && v.value.rest == "" &&
                crypto.Dec(v.value.value) == Some(crypto.Hmac(ServerKey(crypto, saltedPassword), Auth()))
      ensures
        var v := ReadNamed(data, 'v');
        var text := CStr(clientFirst) + "," + CStr(serverFirst) + "," + CStr(clientFinal);
        ok <==> v.Some? && v.value.rest == "" &&
                crypto.Dec(v.value.value) == Some(crypto.Hmac(crypto.Hmac(saltedPassword, "Server Key"), text))
    {
      if data == "" || data[0] == 'e' {
        return false;
      }
      var v := ReadAttribute(data, 'v');
      if v.None? || v.value.rest != "" {
        return false;
      }
      var decoded := crypto.Dec(v.value.value);
      if decoded.None? || |decoded.value| != KEY_LEN {
        return false;
      }
      ok := decoded.value == crypto.Hmac(ServerKey(crypto, saltedPassword), Auth());
    }
  }

  lemma EncPrintable(crypto: Crypto, b: Bytes)
    requires Lawful(crypto)
    ensures Printable(crypto.Enc(b)) && Plain(crypto.Enc(b)) && NUL !in crypto.Enc(b)
  {
  }

  /**
   An accepted client-first message: a header without channel binding or authorization identity, a name, a
   printable nonce and further attributes; what is recorded is the message without its header.
   */
  lemma AcceptedFirst(data: string) returns (name: string, sep: char, nonce: string, tail: string)
    requires ClientFirstCode(data) == 0
    ensures (data[0] == 'n' || data[0] == 'y') && data[1] == ',' && data[2] == ',' && NonceIn(data[3..]) == Some(nonce)
    ensures data[3..] == ['n', '='] + name + [sep] + (['r', '='] + nonce + tail)
    ensures Plain(name) && Separates(sep) && Plain(nonce) && Printable(nonce) && (tail == "" || Separates(tail[0]))
  {
    var bare := data[3..];
    hide ReadNamed, Printable, OnlyAttributes, Follows, Plain, Separates;
    var n := ReadNamed(bare, 'n').value;
    var r := ReadNamed(n.rest, 'r').value;
    ReadNamedIff(bare, 'n', n);
    ReadNamedIff(n.rest, 'r', r);
    name, nonce := n.value, r.value;
    sep := RestIsSuffix(bare, n);
    tail := Behind(n.rest, r);
  }

  lemma Behind(data: string, a: Attribute) returns (tail: string)
    requires Follows(data, a)
    ensures data == [a.key, '='] + a.value + tail && Plain(a.value) && (tail == "" || Separates(tail[0]))
  {
    tail := data[2 + |a.value|..];
  }

  /** The client-first message of this client is accepted, with its nonce. */
  lemma ClientFirstAccepted(nonce: string)
    requires Printable(nonce) && Plain(nonce)
    ensures
      var data := "n,," + ("n=,r=" + nonce);
      ClientFirstCode(data) == 0 && data[3..] == "n=,r=" + nonce && NonceIn(data[3..]) == Some(nonce)
  {
    var bare := "n=,r=" + nonce;
    BareRead(nonce);
  }

  lemma BareRead(nonce: string)
    requires Printable(nonce) && Plain(nonce)
    ensures NonceIn("n=,r=" + nonce) == Some(nonce)
  {
    hide ReadNamed, ReadAny;
    assert ['n', '='] + "" + [','] + (['r', '='] + nonce) == "n=,r=" + nonce;
    ReadBack('n', "", ',', ['r', '='] + nonce);
    ReadBackLast('r', nonce);
  }

  /** The server accepts the proof made from the key whose hash it stores. */
  lemma ProofAccepted(crypto: Crypto, salted: Bytes, auth: string)
    requires Lawful(crypto)
    ensures
      var stored := crypto.H(ClientKey(crypto, salted));
      |Proof(crypto, salted, auth)| == KEY_LEN &&
      crypto.H(Xor(Proof(crypto, salted, auth), crypto.Hmac(stored, auth))) == stored
  {
    XorTwice(ClientKey(crypto, salted), crypto.Hmac(crypto.H(ClientKey(crypto, salted)), auth));
  }

  lemma SignatureRead(crypto: Crypto, signature: Bytes)
    requires Lawful(crypto)
    ensures
      var v := ReadNamed("v=" + crypto.Enc(signature), 'v');
      v.Some? && v.value.rest == "" && crypto.Dec(v.value.value) == Some(signature)
  {
    EncPrintable(crypto, signature);
    ReadBackLast('v', crypto.Enc(signature));
    assert ['v', '='] + crypto.Enc(signature) == "v=" + crypto.Enc(signature);
  }

  lemma SameAuth(clientFirst: string, mine: string, yours: string, clientFinal: string)
    requires CStr(mine) == CStr(yours)
    ensures AuthMessage(clientFirst, mine, clientFinal) == AuthMessage(clientFirst, yours, clientFinal)
  {
  }

  /** The first half of a run: both nonces are exchanged. */
  method Greet(client: State, server: State, cn: Bytes, sn: Bytes, unset: string) returns (challenge: string)
    requires client != server && client.crypto == server.crypto && Lawful(client.crypto) && |unset| >= 2
    modifies client`clientNonce, client`clientFirst
    modifies server`clientNonce, server`clientFirst, server`serverNonce, server`serverFirst
    ensures client.clientFirst == server.clientFirst
    ensures client.clientNonce == server.clientNonce == client.crypto.Enc(cn)
    ensures server.serverNonce == client.crypto.Enc(sn)
    ensures
      var nonce := client.crypto.Enc(cn) + client.crypto.Enc(sn);
      && challenge == ServerFirst.Sent(nonce, server.salt, server.iterations, unset)
      && server.serverFirst == ServerFirst.Kept(nonce, server.salt, server.iterations)
  {
    hide Lawful, ClientFirstCode, NonceIn, Plain, Printable;
    EncPrintable(client.crypto, cn);
    var first := client.CreateClientFirst(cn);
    ClientFirstAccepted(client.clientNonce);
    var code := server.ReadClientFirst(first);
    challenge := server.CreateServerFirst(sn, unset);
  }

  /** The second half of a run on the server: the final message is checked and answered. */
  method Check(server: State, message: string, beyond: Bytes) returns (signature: Option<string>)
    requires Lawful(server.crypto) && |beyond| >= KEY_LEN
    modifies server`clientFinal
    ensures
      var crypto, f := server.crypto, FinalOf(server.crypto, message);
      if f.None? then signature.None?
      else
        var proof := if |f.value.proof| >= KEY_LEN then f.value.proof else f.value.proof + beyond;
        var proven := crypto.H(Xor(proof, crypto.Hmac(server.storedKey, server.Auth()))) == server.storedKey;
        && server.clientFinal == f.value.text
        && (signature.Some? <==> proven && f.value.nonce == server.clientNonce + server.serverNonce)
        && (signature.Some? ==> signature.value == "v=" + crypto.Enc(crypto.Hmac(server.serverKey, server.Auth())))
    ensures
      var crypto, f := server.crypto, FinalOf(server.crypto, message);
      f.Some? ==>
        var text := CStr(server.clientFirst) + "," + CStr(server.serverFirst) + "," + CStr(f.value.text);
        && (forall key: Bytes :: Masks(f.value.proof + beyond, crypto.Hmac(server.storedKey, text), key) ==>
              (signature.Some? <==>
                 f.value.nonce == server.clientNonce + server.serverNonce && crypto.H(key) == server.storedKey))
        && (signature.Some? ==> signature.value == "v=" + crypto.Enc(crypto.Hmac(server.serverKey, text)))
  {
    hide FinalOf;
    var final := server.ReadClientFinal(message);
    if final.None? {
      return None;
    }
    var known := server.VerifyNonce(final.value.nonce);
    if !known {
      return None;
    }
    var proven := server.VerifyProof(final.value.proof, beyond);
    if !proven {
      return None;
    }
    var text := server.CreateServerFinal();
    return Some(text);
  }

  /**
   A client and a server that share a password authenticate each other: whenever the count has three or four
   digits and the salt has no zero byte, both hold the same authentication text, the server accepts the proof
   and the client accepts the signature. With a shorter count the client gives up.
   */
  method HonestRun(
      client: State, server: State, password: string, salt: Bytes, cn: Bytes, sn: Bytes, unset: string, beyond: Bytes)
    returns (accepted: bool)
    requires client != server && client.crypto == server.crypto && Lawful(client.crypto)
    requires server.Verifies(password, salt)
    requires |cn| == RAW_NONCE_LEN && |sn| == RAW_NONCE_LEN && |unset| >= 2 && |beyond| >= KEY_LEN
    modifies client, server
    ensures server.iterations == old(server.iterations)
    ensures 100 <= server.iterations <= 9999 && 0 !in salt ==> accepted && client.Auth() == server.Auth()
    ensures server.iterations < 100 ==> !accepted
  {
    WholeSaltIff(salt);
    hide Lawful, ChallengeOf, FinalOf, ReadNamed, Proof, Plain, Printable, AuthMessage, CStr, CBytes, Masks, Xor,
         Digits, Salted, ServerKey, ClientKey;
    ghost var crypto := client.crypto;
    ghost var nonce := crypto.Enc(cn) + crypto.Enc(sn);
    var challenge := Greet(client, server, cn, sn, unset);
    NonceFits(crypto, cn, sn);
    EncPrintable(crypto, salt);
    ServerFirst.CountDeliveredIff(crypto, client.clientNonce, nonce, salt, server.iterations, unset);
    ServerFirst.SameServerFirst(nonce, server.salt, server.iterations, unset);
    var message := client.CreateClientFinal(password, challenge);
    if !message.Made? {
      return false;
    }
    ghost var proof := Proof(crypto, client.saltedPassword, client.Auth());
    EncPrintable(crypto, proof);
    EncDec(crypto, proof);
    FinalReadBack(crypto, ',', nonce, ',', crypto.Enc(proof));
    SameAuth(client.clientFirst, client.serverFirst, server.serverFirst, client.clientFinal);
    ProofAccepted(crypto, client.saltedPassword, client.Auth());
    var signature := Check(server, message.text, beyond);
    if signature.None? {
      return false;
    }
    SignatureRead(crypto, crypto.Hmac(server.serverKey, server.Auth()));
    accepted := client.VerifyServerSignature(signature.value);
  }

  /**
   This client against any server: what it says, and the signature that it takes, are those of RFC 5802 over the
   messages as they went over the wire. The authentication text is the first message without its header, the
   server's message and the final message without its proof.
   */
  method ClientSide(client: State, password: string, cn: Bytes, challenge: string, answer: string)
    returns (first: string, final: FinalMessage, accepted: bool, ghost c: Challenge, ghost proof: Bytes)
    requires Lawful(client.crypto)
    modifies client
    ensures first == "n,,n=,r=" + client.crypto.Enc(cn)
    ensures final.Refused? <==> ChallengeOf(client.crypto, client.crypto.Enc(cn), challenge).None?
    ensures accepted ==> final.Made?
    ensures final.Made? ==>
              var crypto := client.crypto;
              var withoutProof := "c=biws,r=" + c.nonce;
              var text := first[3..] + "," + CStr(challenge) + "," + withoutProof;
              var salted := crypto.Hi(crypto.Prep(password), CBytes(c.salt), c.iterations);
              var key := crypto.Hmac(salted, "Client Key");
              && ChallengeOf(crypto, crypto.Enc(cn), challenge) == Some(c)
              && Masks(key, crypto.Hmac(crypto.H(key), text), proof)
              && final.text == withoutProof + ",p=" + crypto.Enc(proof)
              && var v := ReadNamed(answer, 'v');
                 (accepted <==> v.Some? && v.value.rest == "" &&
                                crypto.Dec(v.value.value) == Some(crypto.Hmac(crypto.Hmac(salted, "Server Key"), text)))
  {
    hide Lawful, ChallengeOf, ReadNamed, Proof, AuthMessage, CStr, CBytes, Masks;
    c, proof, accepted := Challenge("", [], 0), [], false;
    first := client.CreateClientFirst(cn);
    final := client.CreateClientFinal(password, challenge);
    if !final.Made? {
      return;
    }
    c := ChallengeOf(client.crypto, client.clientNonce, challenge).value;
    proof := Proof(client.crypto, client.saltedPassword, client.Auth());
    accepted := client.VerifyServerSignature(answer);
    WholeTexts(client.crypto, cn, c, challenge);
    assert first[3..] == client.clientFirst && client.clientFinal == "c=biws,r=" + c.nonce;
    ProofMasks(client.crypto, client.saltedPassword, client.clientFirst, challenge, client.clientFinal);
  }

  /** The client's own texts hold no zero byte. */
  lemma WholeTexts(crypto: Crypto, cn: Bytes, c: Challenge, challenge: string)
    requires Lawful(crypto) && ChallengeOf(crypto, crypto.Enc(cn), challenge) == Some(c)
    ensures CStr("n=,r=" + crypto.Enc(cn)) == "n=,r=" + crypto.Enc(cn)
    ensures CStr("c=biws,r=" + c.nonce) == "c=biws,r=" + c.nonce
  {
    hide Plain, Printable, Lawful;
    EncPrintable(crypto, cn);
    NonceRead(crypto, crypto.Enc(cn), c, challenge);
    hide CStr, ChallengeOf;
    NoZeroBehind("n=,r=", crypto.Enc(cn));
    NoZeroBehind("c=biws,r=", c.nonce);
  }

  lemma NonceRead(crypto: Crypto, mine: string, c: Challenge, challenge: string)
    requires ChallengeOf(crypto, mine, challenge) == Some(c)
    ensures NUL !in c.nonce
  {
    hide ChallengeOf;
    var first, salt, second, count, tail := ServerFirst.AcceptedChallenge(crypto, mine, challenge);
  }

  lemma NoZeroBehind(head: string, s: string)
    requires NUL !in head && NUL !in s
    ensures CStr(head + s) == head + s
  {
    CStrWhole(head + s, "");
    assert head + s + "" == head + s;
  }

  lemma ProofMasks(crypto: Crypto, salted: Bytes, clientFirst: string, serverFirst: string, clientFinal: string)
    requires Lawful(crypto)
    ensures
      var key := crypto.Hmac(salted, "Client Key");
      var text := CStr(clientFirst) + "," + CStr(serverFirst) + "," + CStr(clientFinal);
      && AuthMessage(clientFirst, serverFirst, clientFinal) == text
      && Masks(key, crypto.Hmac(crypto.H(key), text), Proof(crypto, salted, text))
  {
  }

  /**
   This server against any client: it answers exactly the proof of RFC 5802, with the signature of RFC 5802, over
   the messages as they went over the wire.
   */
  method ServerSide(server: State, first: string, sn: Bytes, unset: string, final: string, beyond: Bytes)
    returns (code: int, challenge: string, answer: Option<string>)
    requires Lawful(server.crypto) && |unset| >= 2 && |beyond| >= KEY_LEN && NUL !in server.salt
    modifies server
    ensures server.storedKey == old(server.storedKey) && server.serverKey == old(server.serverKey)
    ensures code == ClientFirstCode(first) && (code != 0 ==> answer.None?)
    ensures code == 0 && FinalOf(server.crypto, final).None? ==> answer.None?
    ensures code == 0 && FinalOf(server.crypto, final).Some? ==>
              var crypto, f := server.crypto, FinalOf(server.crypto, final).value;
              var nonce := NonceIn(first[3..]).value + crypto.Enc(sn);
              var text := CStr(first[3..]) + "," + CStr(challenge) + "," + CStr(f.text);
              && "r=" + nonce + ",s=" + server.salt + ",i=" <= challenge
              && (forall key: Bytes :: Masks(f.proof + beyond, crypto.Hmac(server.storedKey, text), key) ==>
                    (answer.Some? <==> f.nonce == nonce && crypto.H(key) == server.storedKey))
              && (answer.Some? ==> answer.value == "v=" + crypto.Enc(crypto.Hmac(server.serverKey, text)))
  {
    hide Lawful, FinalOf, ClientFirstCode, NonceIn, AuthMessage, CStr, Masks, Xor;
    answer := None;
    code, challenge := Challenges(server, first, sn, unset);
    if code == 0 {
      answer := Check(server, final, beyond);
    }
  }

  /** The first half of `ServerSide`. */
  method Challenges(server: State, first: string, sn: Bytes, unset: string) returns (code: int, challenge: string)
    requires Lawful(server.crypto) && |unset| >= 2 && NUL !in server.salt
    modifies server`clientFirst, server`clientNonce, server`serverNonce, server`serverFirst
    ensures code == ClientFirstCode(first)
    ensures code == 0 ==>
              && NonceIn(first[3..]) == Some(server.clientNonce) && server.serverNonce == server.crypto.Enc(sn)
              && server.clientFirst == first[3..] && CStr(server.serverFirst) == CStr(challenge)
              && "r=" + (server.clientNonce + server.serverNonce) + ",s=" + server.salt + ",i=" <= challenge
  {
    hide Lawful, ClientFirstCode, NonceIn, CStr, Digits, ServerFirst.Sent, ServerFirst.Kept;
    challenge := "";
    code := server.ReadClientFirst(first);
    if code != 0 {
      return;
    }
    NonceHasNoZero(first);
    EncPrintable(server.crypto, sn);
    challenge := server.CreateServerFirst(sn, unset);
    ServerFirst.SameServerFirst(server.clientNonce + server.serverNonce, server.salt, server.iterations, unset);
  }

  lemma NonceHasNoZero(data: string)
    requires ClientFirstCode(data) == 0
    ensures NonceIn(data[3..]).Some? && NUL !in NonceIn(data[3..]).value
  {
    var name, sep, nonce, tail := AcceptedFirst(data);
    hide NonceIn, ClientFirstCode;
  }

  lemma NonceFits(crypto: Crypto, cn: Bytes, sn: Bytes)
    requires Lawful(crypto) && |cn| == RAW_NONCE_LEN && |sn| == RAW_NONCE_LEN
    ensures
      var nonce := crypto.Enc(cn) + crypto.Enc(sn);
      |nonce| == 48 && Plain(nonce) && NUL !in nonce && crypto.Enc(cn) <= nonce
  {
    EncPrintable(crypto, cn);
    EncPrintable(crypto, sn);
  }

  lemma EncDec(crypto: Crypto, b: Bytes)
    requires Lawful(crypto)
    ensures crypto.Dec(crypto.Enc(b)) == Some(b)
  {
  }
}
