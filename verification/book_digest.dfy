/** The state digest: an FNV-1a hash of the ordered contents of a book. */
module BookDigest {
  import opened Types
  import opened BookSpec
  import opened Bytes
  import opened Fnv

  const WORD_BYTES: nat := 8

  function HashWord(h: U64, w: U64): U64 { Fold(h, LE(WORD_BYTES, w)) }

  function HashSlots(h: U64, q: seq<Slot>): U64
    decreases |q|
  {
    if q == [] then h
    else HashSlots(HashWord(HashWord(HashWord(h, q[0].id), q[0].sequence), q[0].units), q[1..])
  }

  function HashHeader(h: U64, quote: LevelQuote): U64 {
    HashWord(HashWord(HashWord(h, quote.price), quote.units), Wrap(quote.orders))
  }

  function HashLevels(h: U64, q: seq<Slot>, ps: seq<Price>): U64
    decreases |ps|
  {
    if ps == [] then h
    else HashLevels(HashSlots(HashHeader(h, Quote(q, ps[0])), At(q, ps[0])), q, ps[1..])
  }

  function HashSide(h: U64, s: Side, q: seq<Slot>): U64 {
    HashLevels(HashWord(HashWord(h, if s.Buy? then 0 else 1), Wrap(|Prices(q)|)), q, Prices(q))
  }

  function HashBook(h: U64, b: Book): U64 {
    HashWord(HashSide(HashSide(h, Buy, b.bids), Sell, b.asks), Wrap(|b.bids| + |b.asks|))
  }

  function Digest(b: Book): U64 { HashBook(OFFSET_BASIS, b) }
}
