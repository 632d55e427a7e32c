/** One-time passwords by rejection sampling from blocks of random bytes. */
module Password {
  import opened Common

  newtype byte = x: int | 0 <= x < 256

  const SIZE: int := 56
  const LENGTH: nat := 16

  /** "ABCDEFGHJKLMNPQRSTUVWXYZabcdefghijkmnpqrstuvwxyz23456789": no 0, O, o, 1, l, I. */
  function Alphabet(): (s: string)
    ensures |s| == SIZE && forall i :: 0 <= i < SIZE ==> s[i] == Letter(i)
  {
    seq(SIZE, i requires 0 <= i < SIZE => Letter(i))
  }

  function Letter(i: int): char
    requires 0 <= i < SIZE
  {
    if i < 8 then 'A' + i as char
    else if i < 13 then 'J' + (i - 8) as char
    else if i < 24 then 'P' + (i - 13) as char
    else if i < 35 then 'a' + (i - 24) as char
    else if i < 37 then 'm' + (i - 35) as char
    else if i < 48 then 'p' + (i - 37) as char
    else '2' + (i - 48) as char
  }

  /** The position of a symbol in the alphabet. */
  function Position(c: char): int {
    if 'A' <= c <= 'H' then c as int - 'A' as int
    else if 'J' <= c <= 'N' then c as int - 'J' as int + 8
    else if 'P' <= c <= 'Z' then c as int - 'P' as int + 13
    else if 'a' <= c <= 'k' then c as int - 'a' as int + 24
    else if 'm' <= c <= 'n' then c as int - 'm' as int + 35
    else if 'p' <= c <= 'z' then c as int - 'p' as int + 37
    else c as int - '2' as int + 48
  }

  predicate IsSymbol(c: char) {
    0 <= Position(c) < SIZE && Letter(Position(c)) == c
  }

  /** The largest multiple of the alphabet's size below 256. */
  const MAX_BYTE: int := 256 - 256 % SIZE

  // ---------------------------------------------------------------------------------------------------
  // What a stream of random bytes yields
  // ---------------------------------------------------------------------------------------------------

  function Concat(blocks: seq<seq<byte>>): seq<byte> {
    if blocks == [] then [] else Concat(blocks[..|blocks| - 1]) + blocks[|blocks| - 1]
  }

  /** The bytes that are not rejected. */
  function Accepted(bytes: seq<byte>): seq<byte> {
    if bytes == [] then []
    else if bytes[0] as int < MAX_BYTE then [bytes[0]] + Accepted(bytes[1..])
    else Accepted(bytes[1..])
  }

  function Symbol(b: byte): char {
    Letter(b as int % SIZE)
  }

  function Symbols(bytes: seq<byte>): string {
    seq(|bytes|, i requires 0 <= i < |bytes| => Symbol(bytes[i]))
  }

  /** The alphabet, letter by letter. */
  lemma AlphabetExactly()
    ensures Alphabet() == "ABCDEFGH" + "JKLMN" + "PQRSTUVWXYZ" + "abcdefghijk" + "mn" + "pqrstuvwxyz" + "23456789"
  {
    var s := Alphabet();
    assert s[..8] == "ABCDEFGH";
    assert s[8..13] == "JKLMN";
    assert s[13..24] == "PQRSTUVWXYZ";
    assert s[24..35] == "abcdefghijk";
    assert s[35..37] == "mn";
    assert s[37..48] == "pqrstuvwxyz";
    assert s[48..] == "23456789";
    assert s == s[..8] + s[8..13] + s[13..24] + s[24..35] + s[35..37] + s[37..48] + s[48..];
  }

  /** The bytes from 224 on are rejected; another one gives the symbol at its remainder by 56. */
  lemma BytesExactly(b: byte)
    ensures Accepted([b]) == if b as int < 224 then [b] else []
    ensures Symbols([b]) == [Alphabet()[b as int % 56]]
  {
  }

  lemma {:induction false} AcceptedAppend(a: seq<byte>, b: seq<byte>)
    ensures Accepted(a + b) == Accepted(a) + Accepted(b)
  {
    if a == [] {
      assert a + b == b;
    } else {
      assert (a + b)[1..] == a[1..] + b;
      AcceptedAppend(a[1..], b);
    }
  }

  lemma ConcatAppend(blocks: seq<seq<byte>>, n: nat)
    requires n < |blocks|
    ensures Concat(blocks[..n + 1]) == Concat(blocks[..n]) + blocks[n]
  {
    assert blocks[..n + 1][..n] == blocks[..n];
  }

  /**
   blocks are the blocks that the random source can deliver before it fails. The password is made of the first
   accepted bytes of as few blocks as possible, and there is an error exactly when there are not enough of them.
   */
  method GenerateOneTimePassword(blocks: seq<seq<byte>>) returns (r: Result<string>, used: nat)
    requires forall i :: 0 <= i < |blocks| ==> |blocks[i]| == LENGTH
    ensures used <= |blocks|
    ensures r.Ok? ==> used > 0 && |Accepted(Concat(blocks[..used - 1]))| < LENGTH <= |Accepted(Concat(blocks[..used]))|
                      && r.value == Symbols(Accepted(Concat(blocks[..used]))[..LENGTH])
    ensures r.Ok? ==> |r.value| == 16 && forall i :: 0 <= i < 16 ==> r.value[i] in Alphabet()
    ensures r.Err? ==> used == |blocks| && |Accepted(Concat(blocks))| < LENGTH
  {
    var out := new char[LENGTH];
    var buf := new byte[LENGTH](_ => 0);
    var filled := 0;
    used := 0;
    ghost var seen: seq<byte> := [];
    while filled < LENGTH
      invariant used <= |blocks| && seen == Concat(blocks[..used])
      invariant filled <= LENGTH && filled <= |Accepted(seen)| && (filled < LENGTH ==> filled == |Accepted(seen)|)
      invariant out[..filled] == Symbols(Accepted(seen)[..filled])
      invariant filled == LENGTH ==> used > 0 && |Accepted(Concat(blocks[..used - 1]))| < LENGTH
      decreases |blocks| - used
    {
      if used == |blocks| {
        assert blocks[..used] == blocks;
        return Err(DatabaseError), used;
      }
      forall i | 0 <= i < LENGTH { buf[i] := blocks[used][i]; }
      ConcatAppend(blocks, used);
      filled := Fill(out, buf, filled, seen);
      seen := seen + buf[..];
      used := used + 1;
      assert buf[..] == blocks[used - 1];
      assert seen == Concat(blocks[..used]);
    }
    assert out[..] == out[..filled];
    SpelledInTheAlphabet(Accepted(seen)[..LENGTH]);
    r := Ok(out[..]);
  }

  /** The loop over one block. */
  method Fill(out: array<char>, buf: array<byte>, start: nat, ghost seen: seq<byte>) returns (filled: nat)
    requires out.Length == LENGTH && buf.Length == LENGTH
    requires start < LENGTH && start == |Accepted(seen)| && out[..start] == Symbols(Accepted(seen))
    modifies out
    ensures var all := Accepted(seen + buf[..]);
            && filled == (if |all| < LENGTH then |all| else LENGTH)
            && out[..filled] == Symbols(all[..filled])
  {
    hide Accepted, Symbols, Symbol;
    filled := start;
    ghost var a := Accepted(seen);
    assert seen + buf[..0] == seen;
    for i := 0 to LENGTH
      invariant a == Accepted(seen + buf[..i])
      invariant filled == |a| < LENGTH && out[..filled] == Symbols(a)
    {
      var c := buf[i];
      assert seen + buf[..i + 1] == (seen + buf[..i]) + [c];
      AcceptedNext(seen + buf[..i], c);
      if c as int < MAX_BYTE {
        out[filled] := Symbol(c);
        SymbolsNext(a, c);
        a := a + [c];
        filled := filled + 1;
        if filled == LENGTH {
          assert seen + buf[..] == (seen + buf[..i + 1]) + buf[i + 1..];
          AcceptedAppend(seen + buf[..i + 1], buf[i + 1..]);
          assert Accepted(seen + buf[..])[..LENGTH] == a;
          return;
        }
      }
    }
    assert buf[..LENGTH] == buf[..] && a[..filled] == a;
  }

  lemma AcceptedNext(bytes: seq<byte>, c: byte)
    ensures Accepted(bytes + [c]) == Accepted(bytes) + (if c as int < MAX_BYTE then [c] else [])
  {
    AcceptedAppend(bytes, [c]);
    assert Accepted([c][1..]) == [];
  }

  lemma SymbolsNext(bytes: seq<byte>, c: byte)
    ensures Symbols(bytes + [c]) == Symbols(bytes) + [Symbol(c)]
  {
    hide Symbol;
  }

  // ---------------------------------------------------------------------------------------------------
  // Every password is equally likely
  // ---------------------------------------------------------------------------------------------------

  /** The alphabet has no symbol twice. */
  lemma PositionInverts(i: nat)
    requires i < SIZE
    ensures Position(Alphabet()[i]) == i && IsSymbol(Alphabet()[i])
  {
  }

  ghost predicate IsPassword(p: string) {
    forall i :: 0 <= i < |p| ==> IsSymbol(p[i])
  }

  lemma SymbolsOfTheAlphabet(c: char)
    ensures IsSymbol(c) <==> c in Alphabet()
  {
    if i :| 0 <= i < SIZE && Alphabet()[i] == c { PositionInverts(i); }
    if IsSymbol(c) { assert Alphabet()[Position(c)] == c; }
  }

  /** IsPassword is about the strings over the alphabet. */
  lemma PasswordsAreAlphabetStrings(p: string)
    ensures IsPassword(p) <==> forall i :: 0 <= i < |p| ==> p[i] in Alphabet()
  {
    hide IsSymbol;
    forall i | 0 <= i < |p| ensures IsSymbol(p[i]) <==> p[i] in Alphabet() { SymbolsOfTheAlphabet(p[i]); }
  }

  lemma SpelledInTheAlphabet(bytes: seq<byte>)
    ensures forall i :: 0 <= i < |bytes| ==> Symbols(bytes)[i] in Alphabet()
  {
    hide Letter;
    forall i | 0 <= i < |bytes| ensures Symbols(bytes)[i] in Alphabet() {
      assert Symbols(bytes)[i] == Alphabet()[bytes[i] as int % SIZE];
    }
  }

  /** The k-th accepted byte with symbol c. */
  ghost function Byte(c: char, k: nat): byte
    requires IsSymbol(c) && k < 4
  {
    (Position(c) + k * SIZE) as byte
  }

  lemma ByteHasSymbol(c: char, k: nat)
    requires IsSymbol(c) && k < 4
    ensures Byte(c, k) as int < MAX_BYTE && Symbol(Byte(c, k)) == c && Byte(c, k) as int / SIZE == k
  {
    hide Position, Letter;
  }

  lemma SymbolHasByte(b: byte)
    requires b as int < MAX_BYTE
    ensures IsSymbol(Symbol(b)) && b as int / SIZE < 4 && Byte(Symbol(b), b as int / SIZE) == b
  {
    hide Position, Letter;
    PositionInverts(b as int % SIZE);
  }

  lemma BytesOfASymbol(c: char, b: byte)
    requires IsSymbol(c)
    ensures (b as int < MAX_BYTE && Symbol(b) == c) <==> b in {Byte(c, 0), Byte(c, 1), Byte(c, 2), Byte(c, 3)}
  {
    hide Position, Letter, Symbol, Byte;
    forall k: nat | k < 4 ensures Byte(c, k) as int < MAX_BYTE && Symbol(Byte(c, k)) == c { ByteHasSymbol(c, k); }
    if b as int < MAX_BYTE { SymbolHasByte(b); }
  }

  function Prepend(b: byte, s: set<seq<byte>>): set<seq<byte>> {
    set x | x in s :: [b] + x
  }

  lemma {:induction false} PrependSize(b: byte, s: set<seq<byte>>)
    ensures |Prepend(b, s)| == |s|
  {
    if s != {} {
      var x :| x in s;
      PrependSize(b, s - {x});
      assert Prepend(b, s) == Prepend(b, s - {x}) + {[b] + x};
      assert forall y :: [b] + y == [b] + x ==> ([b] + y)[1..] == ([b] + x)[1..];
    }
  }

  /** The strings of accepted bytes that spell p. */
  ghost function Preimages(p: string): set<seq<byte>>
    requires IsPassword(p)
  {
    if p == "" then {[]}
    else
      var rest := Preimages(p[1..]);
      Prepend(Byte(p[0], 0), rest) + Prepend(Byte(p[0], 1), rest)
      + Prepend(Byte(p[0], 2), rest) + Prepend(Byte(p[0], 3), rest)
  }

  lemma {:induction false} PreimagesSpell(p: string, bytes: seq<byte>)
    requires IsPassword(p)
    ensures bytes in Preimages(p) <==> Accepted(bytes) == bytes && Symbols(bytes) == p
  {
    hide Position, Letter, Byte, Symbol, Prepend;
    if p != "" {
      var rest := Preimages(p[1..]);
      Prepended(Byte(p[0], 0), rest, bytes);
      Prepended(Byte(p[0], 1), rest, bytes);
      Prepended(Byte(p[0], 2), rest, bytes);
      Prepended(Byte(p[0], 3), rest, bytes);
      if bytes != [] {
        PreimagesSpell(p[1..], bytes[1..]);
        BytesOfASymbol(p[0], bytes[0]);
        AcceptedShrinks(bytes[1..]);
        SymbolsCons(bytes[0], bytes[1..]);
        assert [bytes[0]] + bytes[1..] == bytes && [p[0]] + p[1..] == p;
      }
    }
  }

  lemma Prepended(b: byte, s: set<seq<byte>>, bytes: seq<byte>)
    ensures bytes in Prepend(b, s) <==> bytes != [] && bytes[0] == b && bytes[1..] in s
  {
    if bytes != [] { assert [bytes[0]] + bytes[1..] == bytes; }
  }

  lemma {:induction false} AcceptedShrinks(bytes: seq<byte>)
    ensures |Accepted(bytes)| <= |bytes|
  {
    if bytes != [] { AcceptedShrinks(bytes[1..]); }
  }

  function Power(base: nat, n: nat): nat {
    if n == 0 then 1 else base * Power(base, n - 1)
  }

  lemma PrependsAreDisjoint(c: char, s: set<seq<byte>>, i: nat, j: nat)
    requires IsSymbol(c) && i < j < 4
    ensures Prepend(Byte(c, i), s) !! Prepend(Byte(c, j), s)
  {
    forall x | x in Prepend(Byte(c, i), s) ensures x !in Prepend(Byte(c, j), s) {
      assert x[0] == Byte(c, i) != Byte(c, j);
    }
  }

  /** No modulo bias: every password of n symbols has exactly 4 to the n preimages among the accepted bytes. */
  lemma {:induction false} EveryPasswordHasAsManyPreimages(p: string)
    requires IsPassword(p)
    ensures |Preimages(p)| == Power(4, |p|)
  {
    if p != "" {
      var rest := Preimages(p[1..]);
      EveryPasswordHasAsManyPreimages(p[1..]);
      PrependsAreDisjoint(p[0], rest, 0, 1);
      PrependsAreDisjoint(p[0], rest, 0, 2);
      PrependsAreDisjoint(p[0], rest, 0, 3);
      PrependsAreDisjoint(p[0], rest, 1, 2);
      PrependsAreDisjoint(p[0], rest, 1, 3);
      PrependsAreDisjoint(p[0], rest, 2, 3);
      PrependSize(Byte(p[0], 0), rest);
      PrependSize(Byte(p[0], 1), rest);
      PrependSize(Byte(p[0], 2), rest);
      PrependSize(Byte(p[0], 3), rest);
    }
  }

  // ---------------------------------------------------------------------------------------------------
  // The same with rejected bytes
  // ---------------------------------------------------------------------------------------------------

  /** The password that a stream spells, as far as it goes. */
  function Spelled(bytes: seq<byte>, n: nat): string {
    var a := Accepted(bytes);
    Symbols(if |a| < n then a else a[..n])
  }

  /** The stream that spells q where bytes spells p, with the same rejections. */
  ghost function Translate(bytes: seq<byte>, p: string, q: string): seq<byte>
    requires IsPassword(p) && IsPassword(q) && |p| == |q|
  {
    if bytes == [] || p == "" then bytes
    else if bytes[0] as int >= MAX_BYTE then [bytes[0]] + Translate(bytes[1..], p, q)
    else
      var row := bytes[0] as int / SIZE;
      [Byte(q[0], row)] + Translate(bytes[1..], p[1..], q[1..])
  }

  /** Which bytes are rejected. */
  function Rejections(bytes: seq<byte>): (r: seq<bool>)
    ensures |r| == |bytes|
  {
    if bytes == [] then [] else [bytes[0] as int >= MAX_BYTE] + Rejections(bytes[1..])
  }

  lemma {:induction false} SameRejections(bytes: seq<byte>, p: string, q: string)
    requires IsPassword(p) && IsPassword(q) && |p| == |q|
    ensures Rejections(Translate(bytes, p, q)) == Rejections(bytes)
    decreases bytes
  {
    hide Position, Letter, Byte;
    if bytes != [] && p != "" {
      var rejected := bytes[0] as int >= MAX_BYTE;
      if !rejected { ByteHasSymbol(q[0], bytes[0] as int / SIZE); }
      SameRejections(bytes[1..], if rejected then p else p[1..], if rejected then q else q[1..]);
    }
  }

  /**
   Translating is a bijection between the random streams that spell p and those that spell q, so no password is
   more likely than another, whatever is rejected on the way.
   */
  lemma {:induction false} EveryPasswordIsAsLikely(bytes: seq<byte>, p: string, q: string)
    requires IsPassword(p) && IsPassword(q) && |p| == |q|
    requires Spelled(bytes, |p|) == p
    ensures Spelled(Translate(bytes, p, q), |q|) == q && Translate(Translate(bytes, p, q), q, p) == bytes
  {
    hide Position, Letter, Spelled, Byte, Symbol;
    var t := Translate(bytes, p, q);
    if bytes != [] && p != "" {
      SpelledStep(bytes, |p|);
      var rejected := bytes[0] as int >= MAX_BYTE;
      var p', q' := if rejected then p else p[1..], if rejected then q else q[1..];
      if !rejected {
        ByteHasSymbol(q[0], bytes[0] as int / SIZE);
        SymbolHasByte(bytes[0]);
      }
      EveryPasswordIsAsLikely(bytes[1..], p', q');
      assert t[1..] == Translate(bytes[1..], p', q');
      SpelledStep(t, |q|);
      assert [bytes[0]] + bytes[1..] == bytes;
    } else {
      SpelledNothing(bytes, |p|);
    }
  }

  lemma SpelledNothing(bytes: seq<byte>, n: nat)
    requires bytes == [] || n == 0
    ensures Spelled(bytes, n) == ""
  {
  }

  lemma SpelledStep(bytes: seq<byte>, n: nat)
    requires bytes != [] && n > 0
    ensures Spelled(bytes, n) == if bytes[0] as int >= MAX_BYTE then Spelled(bytes[1..], n)
                                 else [Symbol(bytes[0])] + Spelled(bytes[1..], n - 1)
  {
    hide Symbol;
    var a, b := Accepted(bytes), Accepted(bytes[1..]);
    if bytes[0] as int < MAX_BYTE {
      assert a == [bytes[0]] + b;
      var c := if |b| < n - 1 then b else b[..n - 1];
      assert (if |a| < n then a else a[..n]) == [bytes[0]] + c;
      SymbolsCons(bytes[0], c);
    }
  }

  lemma SymbolsCons(x: byte, y: seq<byte>)
    ensures Symbols([x] + y) == [Symbol(x)] + Symbols(y)
  {
  }
}
