/**
 The code list of mkhufftbl.py is canonical: its words are in the order of their length and, among words of
 equal length, of their symbols.  With the lengths, this determines every word.
 */
module HpackOrder {
  import opened Basics
  import opened HpackCodes

  /** Shorter, or as long and for a lower symbol. */
  predicate Earlier(m: nat, i: int, n: nat, j: int) {
    m < n || (m == n && i < j)
  }

  lemma FirstInOrder(p: nat)
    requires 0 <= p < 32
    ensures Earlier(Length(p), Nth(p), Length(p + 1), Nth(p + 1))
  {
  }

  lemma SecondInOrder(p: nat)
    requires 32 <= p < 64
    ensures Earlier(Length(p), Nth(p), Length(p + 1), Nth(p + 1))
  {
  }

  lemma ThirdInOrder(p: nat)
    requires 64 <= p < 96
    ensures Earlier(Length(p), Nth(p), Length(p + 1), Nth(p + 1))
  {
  }

  lemma FourthInOrder(p: nat)
    requires 96 <= p < 128
    ensures Earlier(Length(p), Nth(p), Length(p + 1), Nth(p + 1))
  {
  }

  lemma FifthInOrder(p: nat)
    requires 128 <= p < 160
    ensures Earlier(Length(p), Nth(p), Length(p + 1), Nth(p + 1))
  {
  }

  lemma SixthInOrder(p: nat)
    requires 160 <= p < 192
    ensures Earlier(Length(p), Nth(p), Length(p + 1), Nth(p + 1))
  {
  }

  lemma SeventhInOrder(p: nat)
    requires 192 <= p < 224
    ensures Earlier(Length(p), Nth(p), Length(p + 1), Nth(p + 1))
  {
  }

  lemma LastInOrder(p: nat)
    requires 224 <= p < 256
    ensures Earlier(Length(p), Nth(p), Length(p + 1), Nth(p + 1))
  {
  }

  lemma NextInOrder(p: nat)
    requires p < 256
    ensures Earlier(Length(p), Nth(p), Length(p + 1), Nth(p + 1))
  {
    hide *;
    if p < 32 {
      FirstInOrder(p);
    } else if p < 64 {
      SecondInOrder(p);
    } else if p < 96 {
      ThirdInOrder(p);
    } else if p < 128 {
      FourthInOrder(p);
    } else if p < 160 {
      FifthInOrder(p);
    } else if p < 192 {
      SixthInOrder(p);
    } else if p < 224 {
      SeventhInOrder(p);
    } else {
      LastInOrder(p);
    }
  }

  lemma {:induction false} InOrder(p: nat, q: nat)
    requires p < q < 257
    ensures Earlier(Length(p), Nth(p), Length(q), Nth(q))
  {
    hide Length, Nth;
    NextInOrder(q - 1);
    if p < q - 1 {
      InOrder(p, q - 1);
    }
  }

  lemma PlacesRise(p: nat, q: nat)
    requires p < q < 257
    ensures Start(p) < Start(q)
  {
    hide *;
    StartsRise(p);
    StartsBelow(p + 1, q);
  }

  /** A word comes before another one exactly if it is shorter, or as long and for a lower symbol. */
  lemma ListIsCanonical(i: nat, j: nat)
    requires i < 257 && j < 257 && i != j
    ensures var a, b := Listed(i), Listed(j);
      && a.nbits <= 30 && b.nbits <= 30
      && (a.code * Pow2(30 - a.nbits) < b.code * Pow2(30 - b.nbits) <==> Earlier(a.nbits, i, b.nbits, j))
  {
    hide *;
    Placed(i);
    Placed(j);
    var p, q := Rank(i), Rank(j);
    if p < q {
      InOrder(p, q);
      PlacesRise(p, q);
    } else if q < p {
      InOrder(q, p);
      PlacesRise(q, p);
      NotBoth(Listed(i).nbits, i, Listed(j).nbits, j);
    }
  }

  lemma NotBoth(m: nat, i: int, n: nat, j: int)
    ensures !(Earlier(m, i, n, j) && Earlier(n, j, m, i))
  {
  }

  lemma Placed(k: nat)
    requires k < 257
    ensures Rank(k) < 257 && Nth(Rank(k)) == k
    ensures Listed(k).nbits == Length(Rank(k)) <= 30
    ensures Listed(k).code * Pow2(30 - Listed(k).nbits) == Start(Rank(k))
  {
    hide *;
    Ordered(k);
    ListedAt(k);
    Tiles(Rank(k));
    ShareIsPow2(Rank(k));
  }
}
