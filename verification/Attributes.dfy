/**
 Reading the attributes of a SCRAM message, `k=value` separated by commas, and the decimal number in one of them.
 A cursor and the size of what lies behind it are one value here: the text still to be read.
 */
module Attributes {
  import opened Wrappers

  datatype Attribute = Attribute(key: char, value: string, rest: string)

  const NUL: char := '\0'

  /** What ends a value: a comma, or a zero byte. */
  predicate Separates(c: char) {
    c == ',' || c == NUL
  }

  predicate Plain(s: string) {
    forall i :: 0 <= i < |s| ==> !Separates(s[i])
  }

  predicate IsAlpha(c: char) {
    'a' <= c <= 'z' || 'A' <= c <= 'Z'
  }

  /** How many characters come before the first separator. */
  function PlainPrefix(s: string): (n: nat)
    ensures n <= |s| && (n < |s| ==> Separates(s[n])) && forall i :: 0 <= i < n ==> !Separates(s[i])
  {
    if s == "" || Separates(s[0]) then 0 else 1 + PlainPrefix(s[1..])
  }

  /** The attribute at the start of `data`, whose key is known to be right. */
  function ReadValue(data: string): (r: Option<Attribute>)
    requires data != ""
    ensures r.Some? ==> |r.value.rest| < |data|
  {
    if |data| == 1 || data[1] != '=' then None
    else
      var end := 2 + PlainPrefix(data[2..]);
      Some(Attribute(data[0], data[2..end], if end < |data| then data[end + 1..] else ""))
  }

  function ReadNamed(data: string, key: char): (r: Option<Attribute>)
    ensures r.Some? ==> |r.value.rest| < |data|
  {
    if data == "" || data[0] != key then None else ReadValue(data)
  }

  function ReadAny(data: string): (r: Option<Attribute>)
    ensures r.Some? ==> |r.value.rest| < |data|
  {
    if data == "" || !IsAlpha(data[0]) then None else ReadValue(data)
  }

  /** An attribute, followed by nothing or by a separator and more text. */
  ghost predicate Follows(data: string, a: Attribute) {
    var head := [a.key, '='] + a.value;
    && Plain(a.value) && head <= data
    && ((data == head && a.rest == "") || (|data| > |head| && Separates(data[|head|]) && data[|head| + 1..] == a.rest))
  }

  /** Reading succeeds exactly on a text that begins with the attribute, and yields that attribute. */
  lemma ReadNamedIff(data: string, key: char, a: Attribute)
    ensures ReadNamed(data, key) == Some(a) <==> a.key == key && Follows(data, a)
  {
    if a.key == key && Follows(data, a) {
      FollowsRead(data, a);
    }
  }

  lemma FollowsRead(data: string, a: Attribute)
    requires Follows(data, a)
    ensures ReadNamed(data, a.key) == Some(a)
  {
    hide PlainPrefix;
    var n := |a.value|;
    var head := [a.key, '='] + a.value;
    assert data[..n + 2] == head;
    assert data[0] == head[0] && data[1] == head[1];
    assert data[2..n + 2] == data[2..][..n] == head[2..] == a.value;
    PlainPrefixIs(data[2..], n);
  }

  lemma ReadAnyIff(data: string, a: Attribute)
    ensures ReadAny(data) == Some(a) <==> IsAlpha(a.key) && Follows(data, a)
  {
    if data != "" {
      ReadNamedIff(data, data[0], a);
    }
  }

  /** An attribute written with a separator and more text behind it is read back. */
  lemma ReadBack(key: char, value: string, sep: char, rest: string)
    requires Plain(value) && Separates(sep)
    ensures ReadNamed([key, '='] + value + [sep] + rest, key) == Some(Attribute(key, value, rest))
  {
    var head := [key, '='] + value;
    var data := head + [sep] + rest;
    assert data[..|head|] == head && data[|head|] == sep && data[|head| + 1..] == rest;
    FollowsRead(data, Attribute(key, value, rest));
  }

  /** An attribute at the end of a message is read back. */
  lemma ReadBackLast(key: char, value: string)
    requires Plain(value)
    ensures ReadNamed([key, '='] + value, key) == Some(Attribute(key, value, ""))
  {
    FollowsRead([key, '='] + value, Attribute(key, value, ""));
  }

  lemma {:induction false} PlainPrefixIs(s: string, n: nat)
    requires n <= |s| && Plain(s[..n]) && (n < |s| ==> Separates(s[n]))
    ensures PlainPrefix(s) == n
  {
    if n > 0 {
      assert s[1..][..n - 1] == s[..n][1..];
      assert !Separates(s[..n][0]);
      PlainPrefixIs(s[1..], n - 1);
    }
  }

  /** `read_attribute_buf_after_key`, with the key still in front. */
  method ReadAfterKey(data: string) returns (r: Option<Attribute>)
    requires data != ""
    ensures r == ReadValue(data)
  {
    hide PlainPrefix;
    if 1 >= |data| || data[1] != '=' {
      return None;
    }
    var end := 2;
    while end < |data| && data[end] != NUL && data[end] != ','
      invariant 2 <= end <= |data| && Plain(data[2..end])
    {
      assert data[2..end + 1] == data[2..end] + [data[end]];
      end := end + 1;
    }
    assert data[2..][..end - 2] == data[2..end];
    PlainPrefixIs(data[2..], end - 2);
    r := Some(Attribute(data[0], data[2..end], if end < |data| then data[end + 1..] else ""));
  }

  /** `read_attribute_buf`. */
  method ReadAttribute(data: string, key: char) returns (r: Option<Attribute>)
    ensures r == ReadNamed(data, key)
  {
    if data == "" || data[0] != key {
      return None;
    }
    r := ReadAfterKey(data);
  }

  /** `read_any_attribute_buf`. */
  method ReadAnyAttribute(data: string) returns (r: Option<Attribute>)
    ensures r == ReadAny(data)
  {
    if data == "" || !IsAlpha(data[0]) {
      return None;
    }
    r := ReadAfterKey(data);
  }

  predicate IsSpace(c: char) {
    c == ' ' || 9 as char <= c <= 13 as char
  }

  predicate IsDigit(c: char) {
    '0' <= c <= '9'
  }

  predicate AllDigits(s: string) {
    forall i :: 0 <= i < |s| ==> IsDigit(s[i])
  }

  /** The number a string of digits denotes. */
  function Value(s: string): int
    requires AllDigits(s)
  {
    if s == "" then 0 else Value(s[..|s| - 1]) * 10 + (s[|s| - 1] as int - '0' as int)
  }

  /** The decimal digits of a number, most significant first and without leading zeros. */
  function Digits(n: nat): (s: string)
    ensures s != "" && AllDigits(s)
  {
    var last := ('0' as int + n % 10) as char;
    if n < 10 then [last] else Digits(n / 10) + [last]
  }

  lemma {:induction false} ValueDigits(n: nat)
    ensures Value(Digits(n)) == n
  {
    var s := Digits(n);
    if n < 10 {
      assert s[..0] == "";
    } else {
      ValueDigits(n / 10);
      assert s[..|s| - 1] == Digits(n / 10);
    }
  }

  function SkipSpaces(s: string): (n: nat)
    ensures n <= |s| && (n < |s| ==> !IsSpace(s[n])) && forall i :: 0 <= i < n ==> IsSpace(s[i])
  {
    if s == "" || !IsSpace(s[0]) then 0 else 1 + SkipSpaces(s[1..])
  }

  function SkipDigits(s: string): (n: nat)
    ensures n <= |s| && (n < |s| ==> !IsDigit(s[n])) && forall i :: 0 <= i < n ==> IsDigit(s[i])
  {
    if s == "" || !IsDigit(s[0]) then 0 else 1 + SkipDigits(s[1..])
  }

  /** Spaces, at most one sign, digits: their number and where they end, when a space or nothing follows. */
  function Number(data: string): (r: (int, Option<int>)) {
    var i := SkipSpaces(data);
    if i == |data| then (0, None)
    else
      var j := if data[i] == '-' || data[i] == '+' then i + 1 else i;
      var k := j + SkipDigits(data[j..]);
      if k == j || (k < |data| && !IsSpace(data[k])) then (0, None)
      else
        assert data[j..][..k - j] == data[j..k];
        (if data[i] == '-' then -Value(data[j..k]) else Value(data[j..k]), Some(k))
  }

  /** A number written in decimal is read back. */
  lemma NumberDigits(n: nat)
    ensures Number(Digits(n)) == (n as int, Some(|Digits(n)|))
  {
    var s := Digits(n);
    assert s[..|s|] == s[0..|s|] == s[0..] == s;
    ValueDigits(n);
  }

  /** What is left of a `long` that is assigned to an `int`. */
  function ToInt(n: int): (r: int)
    ensures -0x8000_0000 <= r < 0x8000_0000 && (n - r) % 0x1_0000_0000 == 0
    ensures -0x8000_0000 <= n < 0x8000_0000 ==> r == n
  {
    (n + 0x8000_0000) % 0x1_0000_0000 - 0x8000_0000
  }

  method ReadDigits(data: string, j: nat) returns (value: int, i: nat)
    requires j <= |data|
    ensures i == j + SkipDigits(data[j..]) && AllDigits(data[j..i]) && value == Value(data[j..i])
  {
    value, i := 0, j;
    while i < |data| && IsDigit(data[i])
      invariant j <= i <= |data| && AllDigits(data[j..i]) && value == Value(data[j..i])
    {
      assert data[j..i + 1] == data[j..i] + [data[i]];
      assert data[j..i + 1][..i - j] == data[j..i];
      value := value * 10 + (data[i] as int - '0' as int);
      i := i + 1;
    }
    assert data[j..][..i - j] == data[j..i];
  }

  /** `od_memtol`. */
  method MemToL(data: string) returns (value: int, end: Option<int>)
    ensures (value, end) == Number(data)
  {
    hide SkipSpaces, SkipDigits, Value, AllDigits;
    var i := 0;
    while i < |data| && IsSpace(data[i])
      invariant 0 <= i <= |data| && forall k :: 0 <= k < i ==> IsSpace(data[k])
    {
      i := i + 1;
    }
    if i >= |data| {
      return 0, None;
    }
    var sign := data[i];
    if sign == '-' || sign == '+' {
      i := i + 1;
    }
    if i >= |data| || !IsDigit(data[i]) {
      return 0, None;
    }
    value, i := ReadDigits(data, i);
    if i < |data| && !IsSpace(data[i]) {
      return 0, None;
    }
    return if sign == '-' then -value else value, Some(i);
  }
}
