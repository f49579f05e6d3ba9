/** Validating UTF-8 and splitting it into characters. */
module Utf8 {
  import opened Wrappers

  type Byte = bv8

  // ----- the grammar of section 4 of RFC 3629, with the two-byte lead range widened to C0-DF

  predicate In(b: Byte, lo: Byte, hi: Byte) {
    lo <= b && b <= hi
  }

  predicate Tail(b: Byte) {
    In(b, 0x80, 0xBF)
  }

  predicate Utf8One(c: seq<Byte>) {
    |c| == 1 && In(c[0], 0x00, 0x7F)
  }

  predicate Utf8Two(c: seq<Byte>) {
    |c| == 2 && In(c[0], 0xC0, 0xDF) && Tail(c[1])
  }

  predicate Utf8Three(c: seq<Byte>) {
    |c| == 3 &&
    (|| (c[0] == 0xE0 && In(c[1], 0xA0, 0xBF) && Tail(c[2]))
     || (In(c[0], 0xE1, 0xEC) && Tail(c[1]) && Tail(c[2]))
     || (c[0] == 0xED && In(c[1], 0x80, 0x9F) && Tail(c[2]))
     || (In(c[0], 0xEE, 0xEF) && Tail(c[1]) && Tail(c[2])))
  }

  predicate Utf8Four(c: seq<Byte>) {
    |c| == 4 &&
    (|| (c[0] == 0xF0 && In(c[1], 0x90, 0xBF) && Tail(c[2]) && Tail(c[3]))
     || (In(c[0], 0xF1, 0xF3) && Tail(c[1]) && Tail(c[2]) && Tail(c[3]))
     || (c[0] == 0xF4 && In(c[1], 0x80, 0x8F) && Tail(c[2]) && Tail(c[3])))
  }

  predicate Utf8Char(c: seq<Byte>) {
    Utf8One(c) || Utf8Two(c) || Utf8Three(c) || Utf8Four(c)
  }

  function Flatten(cs: seq<seq<Byte>>): seq<Byte> {
    if cs == [] then [] else cs[0] + Flatten(cs[1..])
  }

  ghost predicate Spells(cs: seq<seq<Byte>>, s: seq<Byte>) {
    (forall i :: 0 <= i < |cs| ==> Utf8Char(cs[i])) && Flatten(cs) == s
  }

  /** Any number of characters. */
  ghost predicate Octets(s: seq<Byte>) {
    exists cs :: Spells(cs, s)
  }

  // ----- the length of a character, from its first byte

  function Utf8Bytes(ch: Byte): Option<nat> {
    if ch & 0x80 == 0 then Some(1)
    else if ch & 0xE0 == 0xC0 then Some(2)
    else if ch & 0xF0 == 0xE0 then Some(3)
    else if ch & 0xF0 == 0xF0 then Some(4)
    else None
  }

  lemma LeadRanges(ch: Byte)
    ensures Utf8Bytes(ch) == Some(1) <==> In(ch, 0x00, 0x7F)
    ensures Utf8Bytes(ch) == Some(2) <==> In(ch, 0xC0, 0xDF)
    ensures Utf8Bytes(ch) == Some(3) <==> In(ch, 0xE0, 0xEF)
    ensures Utf8Bytes(ch) == Some(4) <==> In(ch, 0xF0, 0xFF)
    ensures Utf8Bytes(ch) == None <==> In(ch, 0x80, 0xBF)
  {
  }

  /** The first byte of a character says how long it is. */
  lemma CharLength(c: seq<Byte>)
    requires Utf8Char(c)
    ensures c != [] && Utf8Bytes(c[0]) == Some(|c|)
  {
    LeadRanges(c[0]);
    hide Utf8Bytes;
  }

  // ----- validity, one character at a time

  /** The bytes from the front that make up the first character, if they do. */
  function FirstChar(s: seq<Byte>): Option<nat> {
    if s == [] then None
    else
      var n := Utf8Bytes(s[0]);
      if n.Some? && n.value <= |s| && Utf8Char(s[..n.value]) then n else None
  }

  predicate ValidFrom(s: seq<Byte>)
    decreases |s|
  {
    s == [] || (FirstChar(s).Some? && 0 < FirstChar(s).value <= |s| && ValidFrom(s[FirstChar(s).value..]))
  }

  function CharCount(s: seq<Byte>): nat
    decreases |s|
  {
    if s != [] && FirstChar(s).Some? && 0 < FirstChar(s).value <= |s| then 1 + CharCount(s[FirstChar(s).value..]) else 0
  }

  lemma FirstCharIs(s: seq<Byte>, n: nat)
    requires 0 < n <= |s| && Utf8Char(s[..n])
    ensures FirstChar(s) == Some(n)
  {
    hide Utf8Bytes, Utf8Char;
    CharLength(s[..n]);
  }

  /** A valid string spells exactly one sequence of characters, and their number is the count. */
  lemma {:induction false} SpellsIsValid(cs: seq<seq<Byte>>, s: seq<Byte>)
    requires Spells(cs, s)
    ensures ValidFrom(s) && CharCount(s) == |cs|
    decreases |cs|
  {
    if cs != [] {
      hide Utf8Char, Utf8Bytes;
      CharLength(cs[0]);
      assert s == cs[0] + Flatten(cs[1..]);
      assert s[..|cs[0]|] == cs[0] && s[|cs[0]|..] == Flatten(cs[1..]);
      FirstCharIs(s, |cs[0]|);
      hide FirstChar;
      SpellsIsValid(cs[1..], Flatten(cs[1..]));
    }
  }

  lemma {:induction false} ValidSpells(s: seq<Byte>) returns (cs: seq<seq<Byte>>)
    requires ValidFrom(s)
    ensures Spells(cs, s)
    decreases |s|
  {
    if s == [] {
      cs := [];
    } else {
      var n := FirstChar(s).value;
      var rest := ValidSpells(s[n..]);
      cs := [s[..n]] + rest;
      hide Utf8Char, Utf8Bytes;
      assert cs[1..] == rest && s == s[..n] + s[n..];
    }
  }

  /** Validity is the grammar. */
  lemma ValidIsGrammar(s: seq<Byte>)
    ensures ValidFrom(s) <==> Octets(s)
  {
    if ValidFrom(s) {
      var cs := ValidSpells(s);
    }
    if cs :| Spells(cs, s) {
      SpellsIsValid(cs, s);
    }
  }

  // ----- how this differs from the standard

  /** A character as the standard has it: no two-byte form starts with C0 or C1. */
  predicate StrictChar(c: seq<Byte>) {
    Utf8Char(c) && (|c| == 2 ==> c[0] >= 0xC2)
  }

  ghost predicate StrictOctets(s: seq<Byte>) {
    exists cs :: Spells(cs, s) && forall i :: 0 <= i < |cs| ==> StrictChar(cs[i])
  }

  predicate NoOverlong(s: seq<Byte>) {
    forall i :: 0 <= i < |s| ==> s[i] != 0xC0 && s[i] != 0xC1
  }

  lemma StrictIsNoOverlong(c: seq<Byte>)
    requires Utf8Char(c)
    ensures StrictChar(c) <==> NoOverlong(c)
  {
    if StrictChar(c) {
      forall i | 0 <= i < |c| ensures c[i] != 0xC0 && c[i] != 0xC1 {}
    }
  }

  lemma {:induction false} NoOverlongParts(cs: seq<seq<Byte>>)
    ensures NoOverlong(Flatten(cs)) <==> forall i :: 0 <= i < |cs| ==> NoOverlong(cs[i])
  {
    if cs != [] {
      NoOverlongParts(cs[1..]);
      var a, b := cs[0], Flatten(cs[1..]);
      assert NoOverlong(a + b) <==> NoOverlong(a) && NoOverlong(b) by {
        assert (forall i :: 0 <= i < |a| ==> (a + b)[i] == a[i])
               && forall i :: 0 <= i < |b| ==> (a + b)[|a| + i] == b[i];
      }
      assert forall i :: 0 <= i < |cs[1..]| ==> cs[1..][i] == cs[i + 1];
    }
  }

  /** What the validator accepts beyond the standard are exactly the strings with a byte C0 or C1. */
  lemma OnlyOverlongDiffers(s: seq<Byte>)
    ensures StrictOctets(s) <==> Octets(s) && NoOverlong(s)
  {
    hide StrictChar, Utf8Char, NoOverlong, Flatten;
    if cs :| Spells(cs, s) && forall i :: 0 <= i < |cs| ==> StrictChar(cs[i]) {
      forall i | 0 <= i < |cs| ensures NoOverlong(cs[i]) { StrictIsNoOverlong(cs[i]); }
      NoOverlongParts(cs);
    }
    if Octets(s) && NoOverlong(s) {
      var cs :| Spells(cs, s);
      NoOverlongParts(cs);
      forall i | 0 <= i < |cs| ensures StrictChar(cs[i]) { StrictIsNoOverlong(cs[i]); }
    }
  }

  // ----- the validator

  /** Accepts exactly the grammar, and counts the characters. */
  method Validate(s: seq<Byte>) returns (ok: bool, chars: nat)
    ensures ok <==> Octets(s)
    ensures ok ==> chars == CharCount(s)
  {
    ValidIsGrammar(s);
    hide Octets;
    ok, chars := false, 0;
    var idx: nat := 0;
    assert s[0..] == s;
    while idx < |s|
      invariant idx <= |s|
      invariant ValidFrom(s) <==> ValidFrom(s[idx..])
      invariant CharCount(s) == chars + CharCount(s[idx..])
    {
      var next, good := CheckChar(s, idx);
      if !good {
        return;
      }
      assert s[idx..][next - idx..] == s[next..];
      idx := next;
      chars := chars + 1;
    }
    ok := true;
  }

  /** Checks one character; next is the index after it. */
  method CheckChar(s: seq<Byte>, start: nat) returns (next: nat, good: bool)
    requires start < |s|
    ensures good <==> FirstChar(s[start..]).Some?
    ensures good ==> start < next <= |s| && FirstChar(s[start..]) == Some(next - start)
  {
    var ch := s[start];
    LeadRanges(ch);
    FirstCharAt(s, start);
    hide Utf8Bytes;
    var idx := start;
    next, good := 0, false;
    var bytes := Utf8Bytes(ch);
    if bytes.None? {
      return;
    }
    if bytes.value == 2 {
      idx := idx + 1;
      if idx >= |s| || s[idx] < 0x80 || s[idx] > 0xBF {
        return;
      }
    } else if bytes.value == 3 {
      idx := idx + 1;
      if ch == 0xE0 {
        if idx >= |s| || s[idx] < 0xA0 || s[idx] > 0xBF {
          return;
        }
      } else if ch == 0xED {
        if idx >= |s| || s[idx] < 0x80 || s[idx] > 0x9F {
          return;
        }
      } else if (ch >= 0xE1 && ch <= 0xEC) || (ch >= 0xEE && ch <= 0xEF) {
        if idx >= |s| || s[idx] < 0x80 || s[idx] > 0xBF {
          return;
        }
      } else {
        return;
      }
      idx := idx + 1;
      if idx >= |s| || s[idx] < 0x80 || s[idx] > 0xBF {
        return;
      }
    } else if bytes.value == 4 {
      idx := idx + 1;
      if ch == 0xF0 {
        if idx >= |s| || s[idx] < 0x90 || s[idx] > 0xBF {
          return;
        }
      } else if ch == 0xF4 {
        if idx >= |s| || s[idx] < 0x80 || s[idx] > 0x8F {
          return;
        }
      } else if ch >= 0xF1 && ch <= 0xF3 {
        if idx >= |s| || s[idx] < 0x80 || s[idx] > 0xBF {
          return;
        }
      } else {
        return;
      }
      var stop := idx + 2;
      while idx < stop
        invariant start + 1 <= idx <= stop == start + 3 && idx < |s|
        invariant forall i :: start + 2 <= i <= idx ==> Tail(s[i])
      {
        idx := idx + 1;
        if idx >= |s| || s[idx] < 0x80 || s[idx] > 0xBF {
          return;
        }
      }
    }
    next, good := idx + 1, true;
  }

  lemma FirstCharAt(s: seq<Byte>, start: nat)
    requires start < |s|
    ensures var n := Utf8Bytes(s[start]);
            FirstChar(s[start..]) ==
            if n.Some? && start + n.value <= |s| && Utf8Char(s[start..start + n.value]) then n else None
  {
    hide Utf8Char;
    var n := Utf8Bytes(s[start]);
    if n.Some? && start + n.value <= |s| { assert s[start..][..n.value] == s[start..start + n.value]; }
  }

  // ----- splitting

  /** Splitting a valid string by first bytes never overruns and loses nothing. */
  method SplitChars(s: seq<Byte>) returns (tokens: seq<seq<Byte>>)
    requires Octets(s)
    ensures Spells(tokens, s) && |tokens| == CharCount(s)
  {
    hide Octets, ValidFrom, CharCount, Spells, Utf8Char, Utf8Bytes;
    ValidIsGrammar(s);
    NothingLeft();
    tokens := [];
    var idx: nat := 0;
    assert s[0..] == s && s[..0] == [];
    while idx < |s|
      invariant idx <= |s| && ValidFrom(s[idx..]) && Spells(tokens, s[..idx])
      invariant CharCount(s) == |tokens| + CharCount(s[idx..])
    {
      NextChar(s, idx);
      var tlen := Utf8Bytes(s[idx]);
      SpellsMore(tokens, s[..idx], s[idx..idx + tlen.value]);
      assert s[..idx] + s[idx..idx + tlen.value] == s[..idx + tlen.value];
      tokens := tokens + [s[idx..idx + tlen.value]];
      idx := idx + tlen.value;
    }
    assert s[..|s|] == s && s[|s|..] == [];
  }

  lemma NothingLeft()
    ensures Spells([], []) && CharCount([]) == 0
  {
  }

  lemma NextChar(s: seq<Byte>, idx: nat)
    requires idx < |s| && ValidFrom(s[idx..])
    ensures var n := Utf8Bytes(s[idx]);
            && n.Some? && 0 < n.value && idx + n.value <= |s| && Utf8Char(s[idx..idx + n.value])
            && ValidFrom(s[idx + n.value..]) && CharCount(s[idx..]) == 1 + CharCount(s[idx + n.value..])
  {
    hide Utf8Char, Utf8Bytes;
    FirstCharAt(s, idx);
    var n := Utf8Bytes(s[idx]);
    assert s[idx..][n.value..] == s[idx + n.value..];
  }

  lemma {:induction false} FlattenMore(cs: seq<seq<Byte>>, c: seq<Byte>)
    ensures Flatten(cs + [c]) == Flatten(cs) + c
  {
    if cs == [] {
      assert [c][1..] == [] && cs + [c] == [c];
    } else {
      assert (cs + [c])[1..] == cs[1..] + [c];
      FlattenMore(cs[1..], c);
    }
  }

  lemma SpellsMore(cs: seq<seq<Byte>>, s: seq<Byte>, c: seq<Byte>)
    requires Spells(cs, s) && Utf8Char(c)
    ensures Spells(cs + [c], s + c)
  {
    hide Utf8Char;
    FlattenMore(cs, c);
  }
}
