/** A ring of slots addressed by position, as the two UART buffers use it (consprod.c). */
module Ring {
  import opened Bytes
  import opened Options

  /** The position after p, wrapping at the buffer's end. */
  function Next(p: nat, n: nat): nat
    requires p < n
    ensures Next(p, n) < n
  {
    if p + 1 == n then 0 else p + 1
  }

  function Prev(p: nat, n: nat): nat
    requires p < n
    ensures Prev(p, n) < n
  {
    if p == 0 then n - 1 else p - 1
  }

  /** An end position counts as the start. */
  function Wrap(p: nat, n: nat): nat { if p == n then 0 else p }

  /** Steps from a forward to b. */
  function Dist(a: nat, b: nat, n: nat): int { if b >= a then b - a else b - a + n }

  /** The bytes in k consecutive slots from p. */
  ghost function Slots(buf: seq<byte>, p: nat, k: nat): seq<byte>
    requires p < |buf|
    decreases k
  {
    if k == 0 then [] else [buf[p]] + Slots(buf, Next(p, |buf|), k - 1)
  }

  function At(p: nat, k: nat, n: nat): nat
    requires p < n && k <= n
  {
    if p + k < n then p + k else p + k - n
  }

  lemma SlotsLength(buf: seq<byte>, p: nat, k: nat)
    requires p < |buf|
    ensures |Slots(buf, p, k)| == k
    decreases k
  {
  }

  lemma SlotsFirst(buf: seq<byte>, p: nat, k: nat)
    requires p < |buf| && k > 0
    ensures Slots(buf, p, k) == [buf[p]] + Slots(buf, Next(p, |buf|), k - 1)
  {
  }

  /** One more slot at the end. */
  lemma {:induction false} SlotsAppend(buf: seq<byte>, p: nat, k: nat)
    requires p < |buf| && k < |buf|
    ensures Slots(buf, p, k + 1) == Slots(buf, p, k) + [buf[At(p, k, |buf|)]]
    decreases k
  {
    if k > 0 {
      SlotsAppend(buf, Next(p, |buf|), k - 1);
      assert At(Next(p, |buf|), k - 1, |buf|) == At(p, k, |buf|);
    }
  }

  /** A slot outside the run may change. */
  lemma {:induction false} SlotsUpdate(buf: seq<byte>, p: nat, k: nat, q: nat, b: byte)
    requires p < |buf| && q < |buf| && k <= Dist(p, q, |buf|)
    ensures Slots(buf[q := b], p, k) == Slots(buf, p, k)
    decreases k
  {
    if k > 0 {
      SlotsUpdate(buf, Next(p, |buf|), k - 1, q, b);
    }
  }

  /** Two runs that meet form one. */
  lemma {:induction false} SlotsJoin(buf: seq<byte>, p: nat, k: nat, m: nat)
    requires p < |buf| && k + m <= |buf|
    ensures Slots(buf, p, k) + Slots(buf, At(p, k, |buf|), m) == Slots(buf, p, k + m)
    decreases k
  {
    if k > 0 {
      SlotsJoin(buf, Next(p, |buf|), k - 1, m);
      assert At(Next(p, |buf|), k - 1, |buf|) == At(p, k, |buf|);
    }
  }

  /** A transfer programmed into the control register of a UART: the first position, how many bytes, and how many
      have been moved. The register reads back as the first position in its upper bits and the count in its lower
      eight, so that their sum is the position reached. */
  datatype Transfer = Transfer(start: nat, len: nat, done: nat)

  const MAX_TRANSFER: nat := 255

  function ControlWord(address: nat, count: nat): nat { address * 256 + count }

  function Reached(word: nat): nat { word / 256 + word % 256 }

  /** What the control register reads as: the transfer it was loaded with, or whatever it held before. */
  function RegisterWord(reg: Option<Transfer>, unloaded: nat): nat {
    match reg
    case None => unloaded
    case Some(t) => ControlWord(t.start, t.done)
  }

  lemma ReachedIsPosition(address: nat, count: nat)
    requires count <= MAX_TRANSFER
    ensures Reached(ControlWord(address, count)) == address + count
  {
    assert ControlWord(address, count) / 256 == address;
  }
}
