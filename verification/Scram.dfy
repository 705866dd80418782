/**
 SCRAM-SHA-256, both roles (RFC 5802 sections 3, 5 and 7, RFC 7677). The hash, the keyed hash, the password
 hash, base64 and SASLprep are parameters; `Lawful` states what is assumed of them.
 */
module Scram {
  import opened Attributes
  import opened Wrappers

  type Bytes = seq<bv8>

  const KEY_LEN := 32
  const RAW_NONCE_LEN := 18
  const DEFAULT_ITERATIONS := 4096

  datatype Crypto = Crypto(
    H: Bytes -> Bytes,
    Hmac: (Bytes, string) -> Bytes,
    Hi: (string, Bytes, int) -> Bytes,
    Enc: Bytes -> string,
    Dec: string -> Option<Bytes>,
    Prep: string -> string)

  predicate Base64Char(c: char) {
    IsAlpha(c) || IsDigit(c) || c == '+' || c == '/' || c == '='
  }

  ghost predicate Lawful(crypto: Crypto) {
    && (forall b :: |crypto.H(b)| == KEY_LEN)
    && (forall k, t :: |crypto.Hmac(k, t)| == KEY_LEN)
    && (forall b :: crypto.Dec(crypto.Enc(b)) == Some(b))
    && (forall b :: |crypto.Enc(b)| == 4 * ((|b| + 2) / 3))
    && (forall b, i :: 0 <= i < |crypto.Enc(b)| ==> Base64Char(crypto.Enc(b)[i]))
  }

  /** The part of a buffer that `strlen` sees. */
  function CStr(s: string): (r: string)
    ensures r <= s && NUL !in r && (|r| < |s| ==> s[|r|] == NUL)
  {
    if s == "" || s[0] == NUL then "" else [s[0]] + CStr(s[1..])
  }

  function CBytes(s: Bytes): (r: Bytes)
    ensures r <= s && 0 !in r && (|r| < |s| ==> s[|r|] == 0)
  {
    if s == [] || s[0] == 0 then [] else [s[0]] + CBytes(s[1..])
  }

  /** The client uses the whole salt exactly when the salt has no zero byte. */
  lemma {:induction false} WholeSaltIff(s: Bytes)
    ensures CBytes(s) == s <==> 0 !in s
  {
    if s != [] && s[0] != 0 {
      WholeSaltIff(s[1..]);
      assert s == [s[0]] + s[1..];
      assert CBytes(s)[1..] == CBytes(s[1..]);
    }
  }

  lemma {:induction false} CStrWhole(s: string, tail: string)
    requires NUL !in s && (tail == "" || tail[0] == NUL)
    ensures CStr(s + tail) == s
  {
    if s == "" {
      assert s + tail == tail;
    } else {
      assert (s + tail)[1..] == s[1..] + tail;
      CStrWhole(s[1..], tail);
    }
  }

  function AuthMessage(clientFirst: string, serverFirst: string, clientFinal: string): string {
    CStr(clientFirst) + "," + CStr(serverFirst) + "," + CStr(clientFinal)
  }

  function Salted(crypto: Crypto, password: string, salt: Bytes, iterations: int): Bytes {
    crypto.Hi(crypto.Prep(password), salt, iterations)
  }

  function ClientKey(crypto: Crypto, salted: Bytes): Bytes {
    crypto.Hmac(salted, "Client Key")
  }

  function ServerKey(crypto: Crypto, salted: Bytes): Bytes {
    crypto.Hmac(salted, "Server Key")
  }

  function Xor(a: Bytes, b: Bytes): (r: Bytes)
    requires |a| >= KEY_LEN && |b| >= KEY_LEN
    ensures |r| == KEY_LEN
    ensures forall i :: 0 <= i < KEY_LEN ==> r[i] == a[i] ^ b[i]
  {
    seq(KEY_LEN, i requires 0 <= i < KEY_LEN => a[i] ^ b[i])
  }

  /** Masking twice with the same key gives back the text. */
  lemma XorTwice(a: Bytes, b: Bytes)
    requires |a| == KEY_LEN && |b| == KEY_LEN
    ensures Xor(Xor(a, b), b) == a
  {
  }

  method XorLoop(a: Bytes, b: Bytes) returns (r: Bytes)
    requires |a| >= KEY_LEN && |b| >= KEY_LEN
    ensures r == Xor(a, b)
  {
    r := [];
    for i := 0 to KEY_LEN
      invariant |r| == i && forall j :: 0 <= j < i ==> r[j] == a[j] ^ b[j]
    {
      r := r + [a[i] ^ b[i]];
    }
  }

  datatype Challenge = Challenge(nonce: string, salt: Bytes, iterations: int)

  /** What a client with nonce `mine` takes from a server-first message. */
  function ChallengeOf(crypto: Crypto, mine: string, data: string): Option<Challenge> {
    var r := ReadNamed(data, 'r');
    if r.None? || !(mine <= r.value.value) then None
    else
      var s := ReadNamed(r.value.rest, 's');
      if s.None? || crypto.Dec(s.value.value).None? then None
      else
        var i := ReadNamed(s.value.rest, 'i');
        if i.None? then None
        else
          var n := Number(i.value.value);
          if n.1 != Some(|i.value.value|) || i.value.rest != "" || ToInt(n.0) < 1 then None
          else Some(Challenge(r.value.value, crypto.Dec(s.value.value).value, ToInt(n.0)))
  }

  datatype Final = Final(text: string, nonce: string, proof: Bytes)

  /** The proof attribute, the first with key `p`: what was left to read at its key, its value and what follows. */
  function ProofIn(data: string): (r: Option<(string, string, string)>)
    ensures r.Some? ==> |r.value.0| <= |data|
    decreases |data|
  {
    var a := ReadAny(data);
    if a.None? then None
    else if a.value.key == 'p' then Some((data, a.value.value, a.value.rest))
    else ProofIn(a.value.rest)
  }

  /** What a server takes from a client-final message. */
  function FinalOf(crypto: Crypto, data: string): Option<Final> {
    var c := ReadNamed(data, 'c');
    if c.None? || c.value.value != "biws" then None
    else
      var r := ReadNamed(c.value.rest, 'r');
      if r.None? then None
      else
        var p := ProofIn(r.value.rest);
        if p.None? || crypto.Dec(p.value.1).None? || p.value.2 != "" then None
        else Some(Final(data[..|data| - |p.value.0| - 1], r.value.value, crypto.Dec(p.value.1).value))
  }

  /** What lies behind a read attribute has a separator in front of it. */
  lemma RestIsSuffix(data: string, a: Attribute) returns (sep: char)
    requires Follows(data, a) && a.rest != ""
    ensures Separates(sep) && Plain(a.value) && data == [a.key, '='] + a.value + [sep] + a.rest
  {
    sep := data[|a.value| + 2];
  }

  /** The proof attribute stands first, or behind the separator of the attributes before it. */
  lemma {:induction false} ProofInIsSuffix(data: string) returns (before: string)
    requires ProofIn(data).Some?
    ensures
      var (at, value, rest) := ProofIn(data).value;
      && data == before + at && (before == "" || Separates(before[|before| - 1]))
      && Follows(at, Attribute('p', value, rest))
    decreases |data|
  {
    hide Follows, Separates, Plain, ReadAny;
    var a := ReadAny(data).value;
    ReadAnyIff(data, a);
    if a.key == 'p' {
      before := "";
    } else {
      assert a.rest != "" by { NothingToRead(); }
      var inner := ProofInIsSuffix(a.rest);
      var sep := RestIsSuffix(data, a);
      before := Extend([a.key, '='] + a.value, sep, inner, ProofIn(data).value.0);
    }
  }

  lemma NothingToRead()
    ensures ProofIn("").None?
  {
  }

  lemma Extend(head: string, sep: char, inner: string, at: string) returns (before: string)
    ensures head + [sep] + (inner + at) == before + at
    ensures before != "" && before[|before| - 1] == if inner == "" then sep else inner[|inner| - 1]
  {
    before := head + [sep] + inner;
  }

  /** The separator in front of `at`, and what lies between `head` and it. */
  lemma Divide(head: string, sep: char, before: string, at: string) returns (more: string, last: char)
    requires Separates(sep) && (before == "" || Separates(before[|before| - 1]))
    ensures head + [sep] + (before + at) == head + more + [last] + at
    ensures Separates(last) && (more == "" || Separates(more[0]))
  {
    if before == "" {
      more, last := "", sep;
    } else {
      more, last := [sep] + before[..|before| - 1], before[|before| - 1];
    }
  }

  /** The text up to the separator in front of `at`. */
  lemma CutAt(text: string, sep: char, at: string)
    ensures
      var data := text + [sep] + at;
      data[..|data| - |at| - 1] == text
  {
  }

  lemma Join(a: string, s: char, b: string, t: char, c: string)
    ensures a + [s] + (b + [t] + c) == a + [s] + b + [t] + c
  {
  }

  /** A binding `a` and a nonce `b` with separators, then the attributes `before` and `at`. */
  lemma Assemble(a: string, s: char, b: string, t: char, before: string, at: string)
    returns (more: string, last: char)
    requires Separates(t) && (before == "" || Separates(before[|before| - 1]))
    ensures
      var data := a + [s] + (b + [t] + (before + at));
      && data == a + [s] + b + more + [last] + at && |at| < |data|
      && data[..|data| - |at| - 1] == a + [s] + b + more
    ensures Separates(last) && (more == "" || Separates(more[0]))
  {
    hide Separates;
    more, last := Divide(a + [s] + b, t, before, at);
    Join(a, s, b, t, before + at);
    CutAt(a + [s] + b + more, last, at);
  }

  /** The text of an accepted message without its proof. */
  ghost predicate Recorded(text: string, nonce: string, sep: char, more: string) {
    text == "c=biws" + [sep] + ("r=" + nonce) + more && Separates(sep) && Plain(nonce) &&
    (more == "" || Separates(more[0]))
  }

  lemma IsRecorded(nonce: string, sep: char, more: string)
    requires Separates(sep) && Plain(nonce) && (more == "" || Separates(more[0]))
    ensures Recorded(['c', '='] + "biws" + [sep] + (['r', '='] + nonce) + more, nonce, sep, more)
  {
    assert ['c', '='] + "biws" == "c=biws";
  }

  /**
   What a server records of an accepted client-final message: exactly the text before the separator of the
   proof. It is the channel binding `biws`, the nonce, and whatever attributes follow before the proof.
   */
  lemma AcceptedFinal(crypto: Crypto, data: string)
    returns (first: char, more: string, sep: char, at: string, proof: string, tail: string)
    requires FinalOf(crypto, data).Some?
    ensures
      var f := FinalOf(crypto, data).value;
      && Recorded(f.text, f.nonce, first, more) && data == f.text + [sep] + at && at == "p=" + proof + tail
      && Separates(sep) && Plain(proof) && crypto.Dec(proof) == Some(f.proof)
      && (tail == "" || (|tail| == 1 && Separates(tail[0])))
  {
    hide ReadNamed, ReadAny, ProofIn, Separates, Plain, Recorded, Follows;
    var c := ReadNamed(data, 'c').value;
    var r := ReadNamed(c.rest, 'r').value;
    var value, rest: string;
    at, value, rest := ProofIn(r.rest).value.0, ProofIn(r.rest).value.1, ProofIn(r.rest).value.2;
    ReadNamedIff(data, 'c', c);
    ReadNamedIff(c.rest, 'r', r);
    assert r.rest != "" by { NothingToRead(); }
    var before := ProofInIsSuffix(r.rest);
    proof := value;
    tail := ProofTail(at, value, rest);
    first := RestIsSuffix(data, c);
    var second := RestIsSuffix(c.rest, r);
    more, sep := Assemble(['c', '='] + "biws", first, ['r', '='] + r.value, second, before, at);
    IsRecorded(r.value, first, more);
  }

  lemma ProofTail(at: string, value: string, rest: string) returns (tail: string)
    requires Follows(at, Attribute('p', value, rest)) && rest == ""
    ensures at == "p=" + value + tail && Plain(value) && (tail == "" || (|tail| == 1 && Separates(tail[0])))
  {
    tail := at[2 + |value|..];
  }

  /** The recorded text begins with `c=biws,r=` and the nonce exactly when a comma ends the channel binding. */
  lemma RecordedTextIff(crypto: Crypto, data: string)
    requires FinalOf(crypto, data).Some?
    ensures
      var f := FinalOf(crypto, data).value;
      "c=biws,r=" + f.nonce <= f.text <==> data[6] == ','
  {
    var first, more, sep, at, proof, tail := AcceptedFinal(crypto, data);
    hide FinalOf, Recorded;
    RecordedSeparator(FinalOf(crypto, data).value.text, FinalOf(crypto, data).value.nonce, first, more);
  }

  lemma RecordedSeparator(text: string, nonce: string, sep: char, more: string)
    requires Recorded(text, nonce, sep, more)
    ensures |text| > 6 && text[6] == sep
    ensures "c=biws,r=" + nonce <= text <==> sep == ','
  {
  }

  /** A client-final message with any separators is accepted with its nonce, its proof and the text before it. */
  lemma FinalReadBack(crypto: Crypto, first: char, nonce: string, second: char, proof: string)
    requires Separates(first) && Plain(nonce) && Separates(second) && Plain(proof) && crypto.Dec(proof).Some?
    ensures
      var text := "c=biws" + [first] + ("r=" + nonce);
      FinalOf(crypto, text + [second] + ("p=" + proof)) == Some(Final(text, nonce, crypto.Dec(proof).value))
  {
    hide ReadNamed, ReadAny, Separates, Plain;
    var at := ['p', '='] + proof;
    var left := ['r', '='] + nonce + [second] + at;
    var data := ['c', '='] + "biws" + [first] + left;
    PlainBinding();
    ReadBack('c', "biws", first, left);
    ReadBack('r', nonce, second, at);
    ReadBackLast('p', proof);
    ReadAnyIff(at, Attribute('p', proof, ""));
    ReadNamedIff(at, 'p', Attribute('p', proof, ""));
    Join(['c', '='] + "biws", first, ['r', '='] + nonce, second, at);
    CutAt(['c', '='] + "biws" + [first] + (['r', '='] + nonce), second, at);
    Literals(nonce, proof);
  }

  lemma PlainBinding()
    ensures Plain("biws")
  {
  }

  lemma Literals(nonce: string, proof: string)
    ensures ['c', '='] + "biws" == "c=biws" && ['r', '='] + nonce == "r=" + nonce && ['p', '='] + proof == "p=" + proof
  {
  }
}
