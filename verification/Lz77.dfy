/**
 The symbol stream that deflate hands to its entropy coder, and what a decoder makes of it:
 a literal byte, or a copy of `length` bytes that start `distance` bytes back in the output
 (sections 2 and 3.2.5 of RFC 1951).
 */
module Lz77 {
  import opened Basics

  const MIN_MATCH := 3
  const MAX_MATCH := 258
  const MAX_DISTANCE := 32768

  datatype Symbol = Literal(value: bv8) | Copy(distance: nat, length: nat)

  /** Copies byte by byte, so that a copy may read bytes that it has just written. */
  function CopyBack(out: seq<bv8>, distance: nat, length: nat): seq<bv8>
    requires 1 <= distance <= |out|
    decreases length
  {
    if length == 0 then out
    else CopyBack(out + [out[|out| - distance]], distance, length - 1)
  }

  /** One decoder step; `None` for a symbol that no deflate stream can carry at this point. */
  function Apply(out: seq<bv8>, symbol: Symbol): Option<seq<bv8>> {
    match symbol
    case Literal(value) => Some(out + [value])
    case Copy(distance, length) =>
      if 1 <= distance <= |out| && distance <= MAX_DISTANCE && MIN_MATCH <= length <= MAX_MATCH
      then Some(CopyBack(out, distance, length))
      else None
  }

  /** The bytes that a whole symbol stream stands for. */
  function Expand(symbols: seq<Symbol>): Option<seq<bv8>> {
    if symbols == [] then Some([])
    else
      match Expand(symbols[..|symbols| - 1])
      case None => None
      case Some(out) => Apply(out, symbols[|symbols| - 1])
  }

  lemma ExpandAppend(symbols: seq<Symbol>, symbol: Symbol, out: seq<bv8>)
    requires Expand(symbols) == Some(out)
    ensures Expand(symbols + [symbol]) == Apply(out, symbol)
  {
    assert (symbols + [symbol])[..|symbols|] == symbols;
  }

  /** `length` bytes of `data` at `at` repeat the bytes `distance` earlier. */
  predicate IsMatch(data: seq<bv8>, at: int, distance: int, length: int) {
    && 1 <= distance <= at
    && 0 <= length
    && at + length <= |data|
    && forall i :: at <= i < at + length ==> data[i] == data[i - distance]
  }

  lemma {:induction false} CopyReproduces(data: seq<bv8>, at: nat, distance: nat, length: nat)
    requires IsMatch(data, at, distance, length)
    ensures CopyBack(data[..at], distance, length) == data[..at + length]
    decreases length
  {
    if length == 0 {
    } else {
      assert data[at] == data[at - distance];
      assert data[..at] + [data[..at][at - distance]] == data[..at + 1];
      CopyReproduces(data, at + 1, distance, length - 1);
    }
  }

  /** Appending a sound copy extends the expansion by exactly the matched bytes. */
  lemma CopyExtends(symbols: seq<Symbol>, data: seq<bv8>, at: nat, distance: nat, length: nat)
    requires IsMatch(data, at, distance, length)
    requires distance <= MAX_DISTANCE && MIN_MATCH <= length <= MAX_MATCH
    requires Expand(symbols) == Some(data[..at])
    ensures Expand(symbols + [Copy(distance, length)]) == Some(data[..at + length])
  {
    ExpandAppend(symbols, Copy(distance, length), data[..at]);
    CopyReproduces(data, at, distance, length);
  }

  lemma LiteralExtends(symbols: seq<Symbol>, data: seq<bv8>, at: nat)
    requires at < |data|
    requires Expand(symbols) == Some(data[..at])
    ensures Expand(symbols + [Literal(data[at])]) == Some(data[..at + 1])
  {
    ExpandAppend(symbols, Literal(data[at]), data[..at]);
    assert data[..at] + [data[at]] == data[..at + 1];
  }

  /** A match stays a match when more data follows. */
  lemma MatchGrows(data: seq<bv8>, longer: seq<bv8>, at: int, distance: int, length: int)
    requires IsMatch(data, at, distance, length) && data <= longer
    ensures IsMatch(longer, at, distance, length)
  {
    assert forall i :: 0 <= i < |data| ==> longer[i] == data[i];
  }
}
