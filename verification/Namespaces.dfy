/** Names of the physical namespaces that fence one writer session from the next.

  A name is `remote-`, the fence as 16 hexadecimal digits, `-`, and the session
  id as 32 of them. Parsing a name gives back its fence.
 */
module Namespaces {
  import opened Records

  const PREFIX: string := "remote-"

  type Id = s: Bytes | |s| == 16 witness [0, 0, 0, 0, 0, 0, 0, 0, 0, 0, 0, 0, 0, 0, 0, 0]

  const NIL: Id := [0, 0, 0, 0, 0, 0, 0, 0, 0, 0, 0, 0, 0, 0, 0, 0]

  function Digit(n: nat): (c: char)
    requires n < 16
  {
    "0123456789abcdef"[n]
  }

  /** Value of a lower-case hexadecimal digit. */
  function DigitValue(c: char): (n: Option<nat>)
    ensures n.Some? ==> n.value < 16
  {
    if '0' <= c <= '9' then Some((c as int) - ('0' as int))
    else if 'a' <= c <= 'f' then Some((c as int) - ('a' as int) + 10)
    else None
  }

  lemma DigitRoundTrip(n: nat)
    requires n < 16
    ensures DigitValue(Digit(n)) == Some(n)
    ensures Digit(n) == '0' <==> n == 0
  {
  }

  function Hex(n: nat, width: nat): (s: string)
    ensures |s| == width
  {
    if width == 0 then "" else Hex(n / 16, width - 1) + [Digit(n % 16)]
  }

  predicate AllHex(s: string) {
    forall i :: 0 <= i < |s| ==> DigitValue(s[i]).Some?
  }

  function FromHex(s: string): nat
    requires AllHex(s)
  {
    if s == "" then 0 else FromHex(s[..|s| - 1]) * 16 + DigitValue(s[|s| - 1]).value
  }

  function Pow16(w: nat): nat {
    if w == 0 then 1 else 16 * Pow16(w - 1)
  }

  lemma {:induction false} HexRoundTrip(n: nat, width: nat)
    requires n < Pow16(width)
    ensures AllHex(Hex(n, width)) && FromHex(Hex(n, width)) == n
  {
    if width > 0 {
      HexRoundTrip(n / 16, width - 1);
      DigitRoundTrip(n % 16);
      var s := Hex(n, width);
      assert s[..|s| - 1] == Hex(n / 16, width - 1);
    }
  }

  /** The session id, two digits a byte. */
  function Suffix(session: Bytes): (s: string)
    ensures |s| == 2 * |session|
  {
    if session == [] then "" else Hex(session[0], 2) + Suffix(session[1..])
  }

  predicate AllZero(s: string) {
    forall i :: 0 <= i < |s| ==> s[i] == '0'
  }

  lemma ByteDigits(b: Byte)
    ensures
      var s := Hex(b, 2);
      s == [Digit(b / 16), Digit(b % 16)] && AllHex(s) && (AllZero(s) <==> b == 0)
  {
    assert b / 16 < 16;
    DigitRoundTrip(b / 16);
    DigitRoundTrip(b % 16);
    assert Hex(b / 16, 1) == Hex(b / 16 / 16, 0) + [Digit(b / 16 % 16)];
    var s := Hex(b, 2);
    assert s == [Digit(b / 16), Digit(b % 16)];
    if AllZero(s) { assert s[0] == '0' && s[1] == '0'; }
  }

  lemma {:induction false} SuffixFacts(session: Bytes)
    ensures AllHex(Suffix(session))
    ensures AllZero(Suffix(session)) <==> forall i :: 0 <= i < |session| ==> session[i] == 0
  {
    if session != [] {
      var head, tail := Hex(session[0], 2), Suffix(session[1..]);
      ByteDigits(session[0]);
      SuffixFacts(session[1..]);
      var s := Suffix(session);
      assert s == head + tail;
      if AllZero(s) {
        forall i | 0 <= i < |head| ensures head[i] == '0' { assert s[i] == '0'; }
        forall i | 0 <= i < |tail| ensures tail[i] == '0' { assert s[2 + i] == '0'; }
        forall i | 0 <= i < |session| ensures session[i] == 0 { if i > 0 { assert session[1..][i - 1] == session[i]; } }
      }
      if forall i :: 0 <= i < |session| ==> session[i] == 0 {
        assert session[0] == 0;
        assert AllZero(head) && AllZero(tail);
      }
    }
  }

  lemma {:induction false} SuffixInjective(a: Bytes, b: Bytes)
    requires |a| == |b| && Suffix(a) == Suffix(b)
    ensures a == b
  {
    if a != [] {
      ByteDigits(a[0]);
      ByteDigits(b[0]);
      var s, t := Suffix(a), Suffix(b);
      assert s[..2] == Hex(a[0], 2) && t[..2] == Hex(b[0], 2);
      assert s[2..] == Suffix(a[1..]) && t[2..] == Suffix(b[1..]);
      SuffixInjective(a[1..], b[1..]);
      DigitRoundTrip(a[0] / 16);
      DigitRoundTrip(a[0] % 16);
      DigitRoundTrip(b[0] / 16);
      DigitRoundTrip(b[0] % 16);
      assert Hex(a[0], 2)[0] == Hex(b[0], 2)[0] && Hex(a[0], 2)[1] == Hex(b[0], 2)[1];
      assert a == [a[0]] + a[1..] && b == [b[0]] + b[1..];
    }
  }

  function Namespace(fence: nat, session: Id): string {
    PREFIX + Hex(fence, 16) + "-" + Suffix(session)
  }

  /** The fence a name carries, or `None` for anything that is not a name. */
  function NamespaceFence(value: string): Option<nat> {
    if |value| != 56 || !(PREFIX <= value) || value[23] != '-' then None
    else if !AllHex(value[7..23]) || !AllHex(value[24..]) then None
    else
      var fence := FromHex(value[7..23]);
      if fence == 0 || AllZero(value[24..]) then None else Some(fence)
  }

  lemma PowerOfFence()
    ensures Pow16(16) == U64_MAX + 1
  {
    assert Pow16(4) == 0x1_0000;
    assert Pow16(8) == 0x1_0000_0000 by { assert Pow16(6) == 0x100_0000; }
    assert Pow16(12) == 0x1_0000_0000_0000 by { assert Pow16(10) == 0x100_0000_0000; }
    assert Pow16(14) == 0x100_0000_0000_0000;
  }

  lemma NamespaceParts(fence: nat, session: Id)
    ensures
      var v := Namespace(fence, session);
      && |v| == 56 && PREFIX <= v && v[23] == '-'
      && v[7..23] == Hex(fence, 16) && v[24..] == Suffix(session)
  {
  }

  lemma NilIsZero(session: Id)
    ensures (forall i :: 0 <= i < |session| ==> session[i] == 0) <==> session == NIL
  {
  }

  /** A name parses back to its fence, exactly for a real fence and session. */
  lemma NamespaceRoundTrip(fence: nat, session: Id)
    requires fence <= U64_MAX
    ensures NamespaceFence(Namespace(fence, session)) == if fence == 0 || session == NIL then None else Some(fence)
  {
    hide Namespace, Hex, FromHex, Suffix, AllHex, AllZero, Pow16;
    NamespaceParts(fence, session);
    PowerOfFence();
    HexRoundTrip(fence, 16);
    SuffixFacts(session);
    NilIsZero(session);
  }

  /** Different sessions never share a name. */
  lemma NamespaceInjective(fence: nat, session: Id, fence': nat, session': Id)
    requires fence <= U64_MAX && fence' <= U64_MAX && Namespace(fence, session) == Namespace(fence', session')
    ensures fence == fence' && session == session'
  {
    NamespaceParts(fence, session);
    NamespaceParts(fence', session');
    PowerOfFence();
    HexRoundTrip(fence, 16);
    HexRoundTrip(fence', 16);
    SuffixInjective(session, session');
  }
}
