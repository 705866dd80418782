/**
 The server-first message: a buffer of fixed size into which nonce, salt and iteration count are printed, and
 what the client reads from it.
 */
module ServerFirst {
  import opened Attributes
  import opened Scram
  import opened Wrappers

  /** The message as printed. */
  function Text(nonce: string, salt: string, iterations: nat): string {
    "r=" + nonce + [','] + ("s=" + salt + [','] + ("i=" + Digits(iterations)))
  }

  /** The size reserved for it: four digits are allowed for the count. */
  function Size(nonce: string, salt: string): nat {
    12 + |nonce| + |salt|
  }

  /** What the server keeps: the printed text, cut at the end of the buffer. */
  function Kept(nonce: string, salt: string, iterations: nat): string {
    var text := Text(nonce, salt, iterations);
    if |text| <= Size(nonce, salt) then text else text[..Size(nonce, salt)]
  }

  /** What it sends: the whole buffer, with the terminating zero and unset bytes when the text is shorter. */
  function Sent(nonce: string, salt: string, iterations: nat, unset: string): string
    requires |unset| >= 2
  {
    var text, size := Text(nonce, salt, iterations), Size(nonce, salt);
    if |text| >= size then text[..size]
    else
      TextLength(nonce, salt, iterations);
      text + [NUL] + unset[..size - |text| - 1]
  }

  /** What is sent of the count. */
  function CountSent(iterations: nat, unset: string): string
    requires |unset| >= 2
  {
    var digits := Digits(iterations);
    if |digits| >= 4 then digits[..4] else digits + [NUL] + unset[..3 - |digits|]
  }

  lemma TextLength(nonce: string, salt: string, iterations: nat)
    ensures |Text(nonce, salt, iterations)| == 8 + |nonce| + |salt| + |Digits(iterations)|
  {
  }

  lemma SentIs(nonce: string, salt: string, iterations: nat, unset: string)
    requires |unset| >= 2
    ensures Sent(nonce, salt, iterations, unset) ==
            "r=" + nonce + [','] + ("s=" + salt + [','] + ("i=" + CountSent(iterations, unset)))
  {
    TextLength(nonce, salt, iterations);
  }

  lemma DigitsLength(n: nat)
    ensures |Digits(n)| == 1 <==> n < 10
    ensures |Digits(n)| == 2 <==> 10 <= n < 100
    ensures |Digits(n)| == 3 <==> 100 <= n < 1000
    ensures |Digits(n)| == 4 <==> 1000 <= n < 10000
  {
  }

  function Power10(n: nat): nat {
    if n == 0 then 1 else 10 * Power10(n - 1)
  }

  lemma {:induction false} ValueBound(s: string)
    requires AllDigits(s)
    ensures 0 <= Value(s) < Power10(|s|)
  {
    if s != "" {
      ValueBound(s[..|s| - 1]);
    }
  }

  /** What the client reads of the count: with fewer than three digits something is left over. */
  lemma CountRead(iterations: nat, unset: string)
    requires |unset| >= 2
    ensures
      var digits := Digits(iterations);
      var r := ReadNamed(['i', '='] + CountSent(iterations, unset), 'i');
      && r.Some?
      && (|digits| < 3 ==> r.value.rest != "")
      && (3 <= |digits| <= 4 ==> r.value.value == digits && r.value.rest == "")
      && (|digits| > 4 ==> r.value.value == digits[..4] && r.value.rest == "")
  {
    hide ReadNamed, PlainPrefix;
    var digits := Digits(iterations);
    if |digits| >= 4 {
      assert Plain(digits[..4]);
      ReadBackLast('i', digits[..4]);
    } else {
      var rest := unset[..3 - |digits|];
      ReadBack('i', digits, NUL, rest);
      assert ['i', '='] + (digits + [NUL] + rest) == ['i', '='] + digits + [NUL] + rest;
    }
  }

  /** The client reads the nonce and the salt, then the count. */
  lemma ReadThrough(nonce: string, salt: string, count: string)
    requires Plain(nonce) && Plain(salt)
    ensures
      var data := "r=" + nonce + [','] + ("s=" + salt + [','] + ("i=" + count));
      var r := ReadNamed(data, 'r');
      && r.Some? && r.value.value == nonce
      && ReadNamed(r.value.rest, 's') == Some(Attribute('s', salt, ['i', '='] + count))
  {
    hide ReadNamed, Plain;
    assert ['r', '='] + nonce == "r=" + nonce && ['s', '='] + salt == "s=" + salt && ['i', '='] + count == "i=" + count;
    var left := ['s', '='] + salt + [','] + (['i', '='] + count);
    ReadBack('r', nonce, ',', left);
    ReadBack('s', salt, ',', ['i', '='] + count);
  }

  lemma EncPlain(crypto: Crypto, b: Bytes)
    requires Lawful(crypto)
    ensures Plain(crypto.Enc(b)) && NUL !in crypto.Enc(b)
  {
  }

  /**
   The count reaches the client exactly when it has three or four digits: with fewer the client rejects the
   message, with more it reads the first four.
   */
  lemma CountDeliveredIff(crypto: Crypto, mine: string, nonce: string, salt: Bytes, iterations: nat, unset: string)
    requires Lawful(crypto) && mine <= nonce && Plain(nonce) && |unset| >= 2
    ensures
      var got := ChallengeOf(crypto, mine, Sent(nonce, crypto.Enc(salt), iterations, unset));
      && (100 <= iterations <= 9999 ==> got == Some(Challenge(nonce, salt, iterations)))
      && (iterations < 100 ==> got.None?)
      && (got.Some? ==> got.value.nonce == nonce && got.value.salt == salt)
      && (iterations > 9999 && got.Some? ==> got.value.iterations <= 9999)
  {
    hide ReadNamed, PlainPrefix, Number, Plain, Sent, CountSent, Digits, Value;
    var text, count := crypto.Enc(salt), CountSent(iterations, unset);
    EncPlain(crypto, salt);
    SentIs(nonce, text, iterations, unset);
    ReadThrough(nonce, text, count);
    CountRead(iterations, unset);
    DigitsLength(iterations);
    NumberDigits(iterations);
    if |Digits(iterations)| > 4 {
      NumberBound(Digits(iterations)[..4]);
    }
  }

  /** A server-first message as RFC 5802 writes it is read as it was meant. */
  lemma ChallengeReadBack(crypto: Crypto, mine: string, nonce: string, salt: Bytes, count: nat)
    requires Lawful(crypto) && mine <= nonce && Plain(nonce) && 1 <= count < 0x8000_0000
    ensures
      var data := "r=" + nonce + [','] + ("s=" + crypto.Enc(salt) + [','] + ("i=" + Digits(count)));
      ChallengeOf(crypto, mine, data) == Some(Challenge(nonce, salt, count))
  {
    hide ReadNamed, PlainPrefix, Number, Plain, Digits, Value;
    EncPlain(crypto, salt);
    ReadThrough(nonce, crypto.Enc(salt), Digits(count));
    assert Plain(Digits(count)) by { DigitsPlain(count); }
    ReadBackLast('i', Digits(count));
    NumberDigits(count);
  }

  lemma DigitsPlain(n: nat)
    ensures Plain(Digits(n))
  {
  }

  /**
   An accepted server-first message: a nonce that begins with the client's, a salt, and a count that is nothing
   but a positive number; what separates them is a comma or a zero byte.
   */
  lemma AcceptedChallenge(crypto: Crypto, mine: string, data: string)
    returns (first: char, salt: string, second: char, count: string, tail: string)
    requires ChallengeOf(crypto, mine, data).Some?
    ensures
      var c := ChallengeOf(crypto, mine, data).value;
      && data == ['r', '='] + c.nonce + [first] + (['s', '='] + salt + [second] + (['i', '='] + count + tail))
      && Separates(first) && Separates(second) && (tail == "" || (|tail| == 1 && Separates(tail[0])))
      && Plain(c.nonce) && Plain(salt) && Plain(count)
      && mine <= c.nonce && crypto.Dec(salt) == Some(c.salt)
      && Number(count).1 == Some(|count|) && c.iterations == ToInt(Number(count).0) && c.iterations >= 1
  {
    hide ReadNamed, Number, Follows, Plain, Separates;
    var r := ReadNamed(data, 'r').value;
    var s := ReadNamed(r.rest, 's').value;
    var i := ReadNamed(s.rest, 'i').value;
    ReadNamedIff(data, 'r', r);
    ReadNamedIff(r.rest, 's', s);
    ReadNamedIff(s.rest, 'i', i);
    assert r.rest != "" && s.rest != "" by { NothingNamed(); }
    first := RestIsSuffix(data, r);
    second := RestIsSuffix(r.rest, s);
    salt, count := s.value, i.value;
    tail := LastTail(s.rest, i);
  }

  lemma NothingNamed()
    ensures ReadNamed("", 's').None? && ReadNamed("", 'i').None?
  {
  }

  lemma LastTail(data: string, a: Attribute) returns (tail: string)
    requires Follows(data, a) && a.rest == ""
    ensures data == [a.key, '='] + a.value + tail && Plain(a.value)
    ensures tail == "" || (|tail| == 1 && Separates(tail[0]))
  {
    tail := data[2 + |a.value|..];
  }

  lemma NumberBound(s: string)
    requires AllDigits(s) && |s| == 4
    ensures 0 <= Number(s).0 <= 9999
  {
    assert s[..|s|] == s[0..|s|] == s[0..] == s;
    ValueBound(s);
    assert Power10(4) == 10000;
  }

  lemma TextHasNoZero(nonce: string, salt: string, iterations: nat)
    requires NUL !in nonce && NUL !in salt
    ensures NUL !in Text(nonce, salt, iterations)
  {
  }

  /** Both sides hold the same server-first message. */
  lemma SameServerFirst(nonce: string, salt: string, iterations: nat, unset: string)
    requires NUL !in nonce && NUL !in salt && |unset| >= 2
    ensures CStr(Sent(nonce, salt, iterations, unset)) == CStr(Kept(nonce, salt, iterations))
  {
    hide CStr, Text;
    var text, size := Text(nonce, salt, iterations), Size(nonce, salt);
    assert NUL !in text by { TextHasNoZero(nonce, salt, iterations); }
    CStrWhole(Kept(nonce, salt, iterations), "");
    assert Kept(nonce, salt, iterations) + "" == Kept(nonce, salt, iterations);
    if |text| < size {
      TextLength(nonce, salt, iterations);
      CStrWhole(text, [NUL] + unset[..size - |text| - 1]);
      assert text + ([NUL] + unset[..size - |text| - 1]) == text + [NUL] + unset[..size - |text| - 1];
    }
  }
}
