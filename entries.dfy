/**
 * A message section is a run of entries written back to back. These are the
 * section's wire form for any entry encoder, the reader that takes a counted
 * number of entries with any entry decoder, and the facts that hold for every
 * encoder and decoder pair: appending an entry appends its bytes, and a
 * section of entries that each read back reads back.
 */
module Entries {
  import opened BigEndian
  import opened Wrappers
  import opened Seqs

  /** The entries on the wire, one after the other. */
  function Wires<T>(enc: T -> seq<byte>, xs: seq<T>): seq<byte>
    decreases |xs|
  {
    if |xs| == 0 then [] else enc(xs[0]) + Wires(enc, xs[1..])
  }

  /**
   * Reads `n` entries from the front of `b`, each with `dec`, and the bytes
   * they take. An entry that claims more bytes than are left ends the read.
   */
  function DecodeMany<T>(dec: seq<byte> -> Option<(T, nat)>, b: seq<byte>, n: nat): (r: Option<(seq<T>, nat)>)
    ensures r.Some? ==> |r.value.0| == n && r.value.1 <= |b|
    decreases n
  {
    if n == 0 then Some(([], 0))
    else
      match dec(b)
      case None => None
      case Some((x, k)) =>
        if k > |b| then None
        else
          match DecodeMany(dec, b[k..], n - 1)
          case None => None
          case Some((xs, m)) => Some(([x] + xs, k + m))
  }

  /** Appending an entry appends its wire form. */
  lemma {:induction false} WiresSnoc<T>(enc: T -> seq<byte>, xs: seq<T>, x: T)
    ensures Wires(enc, xs + [x]) == Wires(enc, xs) + enc(x)
    decreases |xs|
  {
    if |xs| == 0 {
      assert xs + [x] == [x];
      assert [x][1..] == [];
    } else {
      assert (xs + [x])[1..] == xs[1..] + [x];
      WiresSnoc(enc, xs[1..], x);
      Assoc(enc(xs[0]), Wires(enc, xs[1..]), enc(x));
    }
  }

  /** Writing the next entry after a prefix and the entries before it. */
  lemma AppendEntry<T>(enc: T -> seq<byte>, pre: seq<byte>, xs: seq<T>, i: nat)
    requires i < |xs|
    ensures pre + Wires(enc, xs[..i]) + enc(xs[i]) == pre + Wires(enc, xs[..i + 1])
  {
    assert xs[..i + 1] == xs[..i] + [xs[i]];
    WiresSnoc(enc, xs[..i], xs[i]);
    Assoc(pre, Wires(enc, xs[..i]), enc(xs[i]));
  }

  /** An entry that `dec` reads from the front of `b`, then `n` entries after it. */
  lemma DecodeManyStep<T>(dec: seq<byte> -> Option<(T, nat)>, b: seq<byte>, n: nat, x: T, k: nat, xs: seq<T>, m: nat)
    requires k <= |b| && dec(b) == Some((x, k)) && DecodeMany(dec, b[k..], n) == Some((xs, m))
    ensures DecodeMany(dec, b, n + 1) == Some(([x] + xs, k + m))
  {
  }

  /** Every entry of `xs` reads back with `dec` from its wire form, whatever follows it. */
  ghost predicate RoundTrips<T>(dec: seq<byte> -> Option<(T, nat)>, enc: T -> seq<byte>, xs: seq<T>)
  {
    forall i, t | 0 <= i < |xs| :: dec(enc(xs[i]) + t) == Some((xs[i], |enc(xs[i])|))
  }

  /** A section of entries that each read back reads back, whatever follows it. */
  lemma {:induction false} ManyRoundTrip<T>(dec: seq<byte> -> Option<(T, nat)>, enc: T -> seq<byte>, xs: seq<T>, rest: seq<byte>)
    requires RoundTrips(dec, enc, xs)
    ensures DecodeMany(dec, Wires(enc, xs) + rest, |xs|) == Some((xs, |Wires(enc, xs)|))
    decreases |xs|
  {
    if |xs| == 0 {
      assert Wires(enc, xs) + rest == rest;
    } else {
      var x, tl := xs[0], xs[1..];
      var w, tw := enc(x), Wires(enc, tl);
      var b := Wires(enc, xs) + rest;
      assert Wires(enc, xs) == w + tw;
      assert b == w + (tw + rest) && b[|w|..] == tw + rest by {
        Assoc(w, tw, rest);
      }
      assert DecodeMany(dec, tw + rest, |tl|) == Some((tl, |tw|)) by {
        assert forall i | 0 <= i < |tl| :: tl[i] == xs[i + 1];
        ManyRoundTrip(dec, enc, tl, rest);
      }
      assert dec(b) == Some((x, |w|));
      DecodeManyStep(dec, b, |tl|, x, |w|, tl, |tw|);
      assert [x] + tl == xs;
      assert |Wires(enc, xs)| == |w| + |tw|;
    }
  }
}
