/** What the entropy encoders emit: Huffman symbols and raw bits. The same token
    sequence is either counted (statistics pass) or written out as bits. */
module Tokens {
  import opened Bits
  import opened Wrappers

  type Byte = x: int | 0 <= x < 256

  /** Reads one symbol off the front of a bit string; None if the bits run out. */
  type Reader = seq<bool> -> Option<(Byte, seq<bool>)>

  /** A symbol code: its code words, and the reader that inverts them. */
  datatype Coding = Coding(book: map<Byte, seq<bool>>, read: Reader)

  ghost predicate Sound(c: Coding) {
    forall s: Byte, rest: seq<bool> :: s in c.book ==> c.read(c.book[s] + rest) == Some((s, rest))
  }

  datatype TableId = Dc(no: nat) | Ac(no: nat)

  /** Sym: a Huffman symbol of a table; Raw: the low n bits of v. */
  datatype Token = Sym(id: TableId, s: int) | Raw(v: int, n: nat)

  type Tables = map<TableId, Coding>

  /** Emitting the token raises no JERR_HUFF_MISSING_CODE. */
  predicate Emittable(T: Tables, tok: Token) {
    match tok
    case Sym(id, s) => id in T && 0 <= s < 256 && s in T[id].book
    case Raw(_, n) => n > 0
  }

  predicate Covers(T: Tables, toks: seq<Token>) {
    forall i :: 0 <= i < |toks| ==> Emittable(T, toks[i])
  }

  function TokenBits(T: Tables, tok: Token): seq<bool>
    requires Emittable(T, tok)
  {
    match tok
    case Sym(id, s) => T[id].book[s]
    case Raw(v, n) => ToBits(v, n)
  }

  /** The bits of toks, followed by rest. */
  function Emit(T: Tables, toks: seq<Token>, rest: seq<bool>): seq<bool>
    requires Covers(T, toks)
  {
    if toks == [] then rest else TokenBits(T, toks[0]) + Emit(T, toks[1..], rest)
  }

  /** Reads n raw bits. */
  function GetBits(n: nat, bits: seq<bool>): Option<(nat, seq<bool>)> {
    if |bits| < n then None else Some((FromBits(bits[..n]), bits[n..]))
  }

  /** How often a statistics pass counts symbol s of table id. */
  function Count(toks: seq<Token>, id: TableId, s: int): nat {
    if toks == [] then 0
    else (if toks[0] == Sym(id, s) then 1 else 0) + Count(toks[1..], id, s)
  }

  lemma CoversConcat(T: Tables, a: seq<Token>, b: seq<Token>)
    ensures Covers(T, a + b) <==> Covers(T, a) && Covers(T, b)
  {
    if Covers(T, a + b) {
      assert forall i :: 0 <= i < |a| ==> a[i] == (a + b)[i];
      assert forall i :: 0 <= i < |b| ==> b[i] == (a + b)[|a| + i];
    }
  }

  lemma {:induction false} EmitConcat(T: Tables, a: seq<Token>, b: seq<Token>, rest: seq<bool>)
    requires Covers(T, a + b)
    ensures Covers(T, a) && Covers(T, b)
    ensures Emit(T, a + b, rest) == Emit(T, a, Emit(T, b, rest))
  {
    CoversConcat(T, a, b);
    if a == [] {
      assert a + b == b;
    } else {
      assert (a + b)[1..] == a[1..] + b;
      EmitConcat(T, a[1..], b, rest);
    }
  }

  lemma {:induction false} EmitRest(T: Tables, a: seq<Token>, rest: seq<bool>)
    requires Covers(T, a)
    ensures Emit(T, a, rest) == Emit(T, a, []) + rest
  {
    if a != [] {
      EmitRest(T, a[1..], rest);
      SeqAssoc(TokenBits(T, a[0]), Emit(T, a[1..], []), rest);
    }
  }

  lemma EmitNothing(T: Tables, rest: seq<bool>)
    ensures Covers(T, []) && Emit(T, [], rest) == rest
  {
  }

  lemma SeqAssoc<X>(a: seq<X>, b: seq<X>, c: seq<X>)
    ensures a + (b + c) == (a + b) + c
  {
  }

  lemma {:induction false} CountConcat(a: seq<Token>, b: seq<Token>, id: TableId, s: int)
    ensures Count(a + b, id, s) == Count(a, id, s) + Count(b, id, s)
  {
    if a == [] {
      assert a + b == b;
    } else {
      CountConcat(a[1..], b, id, s);
      assert (a + b)[1..] == a[1..] + b;
    }
  }

  lemma {:induction false} CountPositive(toks: seq<Token>, i: nat)
    requires i < |toks| && toks[i].Sym?
    ensures Count(toks, toks[i].id, toks[i].s) > 0
  {
    if i > 0 {
      CountPositive(toks[1..], i - 1);
    }
  }

  lemma ReadSymbol(T: Tables, id: TableId, s: int, toks: seq<Token>, rest: seq<bool>)
    requires id in T && Sound(T[id]) && Covers(T, [Sym(id, s)] + toks)
    ensures Covers(T, toks) && 0 <= s < 256
    ensures T[id].read(Emit(T, [Sym(id, s)] + toks, rest)) == Some((s, Emit(T, toks, rest)))
  {
    var all := [Sym(id, s)] + toks;
    CoversConcat(T, [Sym(id, s)], toks);
    assert Emittable(T, all[0]);
    assert all[1..] == toks;
  }

  lemma ReadRaw(T: Tables, v: int, n: nat, toks: seq<Token>, rest: seq<bool>)
    requires Covers(T, [Raw(v, n)] + toks)
    ensures Covers(T, toks) && n > 0
    ensures GetBits(n, Emit(T, [Raw(v, n)] + toks, rest)) == Some((FromBits(ToBits(v, n)), Emit(T, toks, rest)))
  {
    var all := [Raw(v, n)] + toks;
    CoversConcat(T, [Raw(v, n)], toks);
    assert Emittable(T, all[0]);
    assert all[1..] == toks;
    var x, tail := ToBits(v, n), Emit(T, toks, rest);
    assert (x + tail)[..n] == x && (x + tail)[n..] == tail;
  }
}
