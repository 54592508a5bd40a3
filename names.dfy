/**
 * Domain names as `Question.bytes()` and `ResourceRecord.bytes()` in
 * app/main.go encode them: the name is cut at every '.' with Go's
 * `strings.Split`, each piece is written as a length byte followed by its
 * bytes, and a zero byte ends the name. Go strings are byte strings, so a
 * name is a sequence of bytes here.
 */
module DnsName {
  import opened BigEndian
  import opened Wrappers
  import opened Seqs

  /** The separator byte '.'. */
  const Dot: byte := 0x2E

  /**
   * `strings.Split(s, ".")`: the pieces of `s` between the dots, in order.
   * There is always one piece more than there are dots, so the empty string
   * gives one empty piece and a leading, trailing or doubled dot gives an
   * empty piece too.
   */
  function Split(s: seq<byte>): (r: seq<seq<byte>>)
    ensures |r| >= 1
    ensures forall l | l in r :: Dot !in l
  {
    if |s| == 0 then [[]]
    else
      var init := Split(s[..|s| - 1]);
      if s[|s| - 1] == Dot then init + [[]]
      else init[..|init| - 1] + [init[|init| - 1] + [s[|s| - 1]]]
  }

  /** `strings.Join(ls, ".")`: the pieces with a dot between neighbours. */
  function Join(ls: seq<seq<byte>>): seq<byte>
  {
    if |ls| == 0 then []
    else if |ls| == 1 then ls[0]
    else Join(ls[..|ls| - 1]) + [Dot] + ls[|ls| - 1]
  }

  /** Every piece is free of dots. */
  predicate DotFree(ls: seq<seq<byte>>)
  {
    forall l | l in ls :: Dot !in l
  }

  /** Joining the pieces of a split gives the string back. */
  lemma {:induction false} JoinSplit(s: seq<byte>)
    ensures Join(Split(s)) == s
    decreases |s|
  {
    if |s| > 0 {
      var s', c := s[..|s| - 1], s[|s| - 1];
      assert s == s' + [c];
      var init := Split(s');
      JoinSplit(s');
      var n := |init|;
      if c != Dot {
        var r := init[..n - 1] + [init[n - 1] + [c]];
        if n > 1 {
          assert r[..n - 1] == init[..n - 1];
          assert Join(r) == Join(init[..n - 1]) + [Dot] + init[n - 1] + [c];
        }
      }
    }
  }

  /** Appending a byte other than a dot extends the last piece of the split. */
  lemma SplitSnoc(s: seq<byte>, c: byte)
    requires c != Dot
    ensures var p := Split(s);
      Split(s + [c]) == p[..|p| - 1] + [p[|p| - 1] + [c]]
  {
    assert (s + [c])[..|s + [c]| - 1] == s;
  }

  /** The inductive step of `SplitAppendFree`: one more dot-free byte at the end. */
  lemma SplitAppendStep(s: seq<byte>, l: seq<byte>, c: byte)
    requires c != Dot
    requires var p := Split(s);
      Split(s + l) == p[..|p| - 1] + [p[|p| - 1] + l]
    ensures var p := Split(s);
      Split(s + (l + [c])) == p[..|p| - 1] + [p[|p| - 1] + (l + [c])]
  {
    var p, q := Split(s), Split(s + l);
    assert s + (l + [c]) == (s + l) + [c];
    SplitSnoc(s + l, c);
    assert q[..|q| - 1] == p[..|p| - 1] && q[|q| - 1] == p[|p| - 1] + l;
    assert (p[|p| - 1] + l) + [c] == p[|p| - 1] + (l + [c]);
  }

  /**
   * Appending dot-free bytes to a string extends the last piece of its split
   * and leaves the others alone.
   */
  lemma {:induction false} SplitAppendFree(s: seq<byte>, l: seq<byte>)
    requires Dot !in l
    ensures var p := Split(s);
      Split(s + l) == p[..|p| - 1] + [p[|p| - 1] + l]
    decreases |l|
  {
    if |l| == 0 {
      var p := Split(s);
      assert l == [] && s + l == s;
      assert p[|p| - 1] + l == p[|p| - 1];
      assert p[..|p| - 1] + [p[|p| - 1]] == p;
    } else {
      var l', c := l[..|l| - 1], l[|l| - 1];
      assert l == l' + [c];
      assert Dot !in l' && c != Dot by {
        assert c in l;
        forall i | 0 <= i < |l'| ensures l'[i] != Dot {
          assert l'[i] == l[i];
        }
      }
      SplitAppendFree(s, l');
      SplitAppendStep(s, l', c);
    }
  }

  /** Splitting the join of dot-free pieces gives the pieces back. */
  lemma {:induction false} SplitJoin(ls: seq<seq<byte>>)
    requires |ls| >= 1 && DotFree(ls)
    ensures Split(Join(ls)) == ls
    decreases |ls|
  {
    var n := |ls|;
    var l := ls[n - 1];
    if n == 1 {
      SplitAppendFree([], l);
      assert [] + l == l;
      assert ls == [l];
    } else {
      var init := ls[..n - 1];
      assert DotFree(init) by {
        forall x | x in init ensures Dot !in x {
          assert x in ls;
        }
      }
      var j := Join(init) + [Dot];
      assert Split(j) == init + [[]] by {
        SplitJoin(init);
        assert j[..|j| - 1] == Join(init);
      }
      assert Split(j + l) == init + [l] by {
        assert Dot !in l by {
          assert l in ls;
        }
        SplitAppendFree(j, l);
        assert (init + [[]])[..n - 1] == init;
        assert [] + l == l;
      }
      assert Join(ls) == j + l;
      assert init + [l] == ls;
    }
  }

  /** One label on the wire: `byte(len(lbl))`, which keeps the length mod 256, then the bytes. */
  function LabelWire(l: seq<byte>): (r: seq<byte>)
    ensures |r| == |l| + 1 && r[0] == |l| % 0x100 && r[1..] == l
  {
    [|l| % 0x100] + l
  }

  /** The labels on the wire, one after the other. */
  function LabelsWire(ls: seq<seq<byte>>): seq<byte>
  {
    if |ls| == 0 then [] else LabelWire(ls[0]) + LabelsWire(ls[1..])
  }

  /** A name on the wire: its labels, then the zero byte. */
  function NameWire(name: seq<byte>): seq<byte>
  {
    LabelsWire(Split(name)) + [0]
  }

  /** Appending a label appends its wire form. */
  lemma {:induction false} LabelsWireSnoc(ls: seq<seq<byte>>, l: seq<byte>)
    ensures LabelsWire(ls + [l]) == LabelsWire(ls) + LabelWire(l)
    decreases |ls|
  {
    if |ls| == 0 {
      assert ls + [l] == [l];
      assert [l][1..] == [];
    } else {
      assert (ls + [l])[1..] == ls[1..] + [l];
      LabelsWireSnoc(ls[1..], l);
    }
  }

  /**
   * The label loop of `Question.bytes()` and `ResourceRecord.bytes()`
   * (written out twice in the source): split the name, append each label's
   * length byte and bytes, then the terminating zero.
   */
  method EncodeName(name: seq<byte>) returns (out: seq<byte>)
    ensures out == NameWire(name)
  {
    var labels := Split(name);
    out := [];
    for i := 0 to |labels|
      invariant out == LabelsWire(labels[..i])
    {
      assert labels[..i + 1] == labels[..i] + [labels[i]];
      LabelsWireSnoc(labels[..i], labels[i]);
      out := out + [|labels[i]| % 0x100];
      out := out + labels[i];
    }
    assert labels[..|labels|] == labels;
    out := out + [0];
  }

  /** The labels take one length byte each on top of their bytes. */
  lemma {:induction false} LabelsWireLength(ls: seq<seq<byte>>)
    requires |ls| >= 1
    ensures |LabelsWire(ls)| == |Join(ls)| + 1
    decreases |ls|
  {
    var init := ls[..|ls| - 1];
    assert ls == init + [ls[|ls| - 1]];
    LabelsWireSnoc(init, ls[|ls| - 1]);
    if |ls| > 1 {
      LabelsWireLength(init);
    }
  }

  /**
   * Every name, whatever its dots, takes two bytes more on the wire than it
   * has: one length byte per label and the zero byte replace the dots.
   */
  lemma NameWireLength(name: seq<byte>)
    ensures |NameWire(name)| == |name| + 2
  {
    LabelsWireLength(Split(name));
    JoinSplit(name);
  }

  /**
   * Reads labels from the front of `b` up to the zero byte: the labels and
   * the number of bytes consumed, or None when the bytes run out.
   */
  function DecodeLabels(b: seq<byte>): (r: Option<(seq<seq<byte>>, nat)>)
    ensures r.Some? ==> r.value.1 <= |b|
    decreases |b|
  {
    if |b| == 0 then None
    else
      var k := b[0] as int;
      if k == 0 then Some(([], 1))
      else if |b| < 1 + k then None
      else
        match DecodeLabels(b[1 + k..])
        case None => None
        case Some((ls, n)) => Some(([b[1..1 + k]] + ls, 1 + k + n))
  }

  /**
   * Reads a name from the front of `b`: its labels joined with dots, and the
   * bytes consumed. The root name (no label before the zero byte) is not
   * something the encoder produces, so it is rejected.
   */
  function DecodeName(b: seq<byte>): (r: Option<(seq<byte>, nat)>)
    ensures r.Some? ==> r.value.1 <= |b|
  {
    match DecodeLabels(b)
    case None => None
    case Some((ls, n)) => if |ls| == 0 then None else Some((Join(ls), n))
  }

  /** Every label is between 1 and 255 bytes long, so its length byte is exact and not zero. */
  predicate LabelsFit(ls: seq<seq<byte>>)
  {
    forall i | 0 <= i < |ls| :: 0 < |ls[i]| < 0x100
  }

  /** Where a label's length byte, its bytes and what follows sit in its wire form. */
  lemma LabelWireParts(l: seq<byte>, t: seq<byte>)
    ensures var b := LabelWire(l) + t;
      |b| >= 1 + |l| && b[0] == |l| % 0x100 && b[1..1 + |l|] == l && b[1 + |l|..] == t
  {
  }

  /** A length byte and that many bytes make a label, and decoding goes on after it. */
  lemma DecodeLabelStep(b: seq<byte>, l: seq<byte>, ls: seq<seq<byte>>, n: nat)
    requires 0 < |l| < 0x100 && |b| >= 1 + |l| && b[0] == |l| && b[1..1 + |l|] == l
    requires DecodeLabels(b[1 + |l|..]) == Some((ls, n))
    ensures DecodeLabels(b) == Some(([l] + ls, 1 + |l| + n))
  {
  }

  /** The inductive step of `LabelsRoundTrip`: one more label in front. */
  lemma LabelsRoundTripStep(ls: seq<seq<byte>>, rest: seq<byte>)
    requires |ls| > 0 && 0 < |ls[0]| < 0x100
    requires DecodeLabels(LabelsWire(ls[1..]) + [0] + rest) == Some((ls[1..], |LabelsWire(ls[1..])| + 1))
    ensures DecodeLabels(LabelsWire(ls) + [0] + rest) == Some((ls, |LabelsWire(ls)| + 1))
  {
    var l, tl := ls[0], ls[1..];
    var t := LabelsWire(tl) + [0] + rest;
    var n := |LabelsWire(tl)| + 1;
    var w, b := LabelWire(l), LabelsWire(ls) + [0] + rest;
    assert LabelsWire(ls) == w + LabelsWire(tl);
    assert b == w + t by {
      Assoc(w, LabelsWire(tl), [0]);
      Assoc(w, LabelsWire(tl) + [0], rest);
    }
    LabelWireParts(l, t);
    assert |LabelsWire(ls)| + 1 == 1 + |l| + n;
    assert [l] + tl == ls;
    DecodeLabelStep(b, l, tl, n);
  }

  /** Labels of 1 to 255 bytes read back from their wire form. */
  lemma {:induction false} LabelsRoundTrip(ls: seq<seq<byte>>, rest: seq<byte>)
    requires LabelsFit(ls)
    ensures DecodeLabels(LabelsWire(ls) + [0] + rest) == Some((ls, |LabelsWire(ls)| + 1))
    decreases |ls|
  {
    if |ls| == 0 {
      assert LabelsWire(ls) + [0] + rest == [0] + rest;
    } else {
      assert LabelsFit(ls[1..]) by {
        assert forall i | 0 <= i < |ls[1..]| :: ls[1..][i] == ls[i + 1];
      }
      LabelsRoundTrip(ls[1..], rest);
      LabelsRoundTripStep(ls, rest);
    }
  }

  /** A name whose labels fit reads back as the join of its labels. */
  lemma NameDecodes(name: seq<byte>, rest: seq<byte>)
    requires LabelsFit(Split(name))
    ensures DecodeName(NameWire(name) + rest) == Some((Join(Split(name)), |LabelsWire(Split(name))| + 1))
  {
    LabelsRoundTrip(Split(name), rest);
  }

  /**
   * A name whose labels are 1 to 255 bytes long reads back from its wire
   * form, whatever follows it, consuming exactly its `|name| + 2` bytes.
   */
  lemma NameRoundTrip(name: seq<byte>, rest: seq<byte>)
    requires LabelsFit(Split(name))
    ensures DecodeName(NameWire(name) + rest) == Some((name, |name| + 2))
  {
    NameDecodes(name, rest);
    JoinSplit(name);
    NameWireLength(name);
  }

  /**
   * The empty name is one empty label: a zero length byte, then the
   * terminator. A reader takes the first zero as the end of a name with no
   * label and rejects it, so the empty name does not read back.
   */
  lemma EmptyName(rest: seq<byte>)
    ensures NameWire([]) == [0, 0]
    ensures DecodeName(NameWire([]) + rest) == None
  {
    assert LabelsWire([[]]) == LabelWire([]) + LabelsWire([]);
  }

  /**
   * A trailing dot adds an empty label, whose zero length byte reads as the
   * end of the name: a decoder stops one byte early and misses the name's
   * real terminator.
   */
  lemma TrailingDot(l: seq<byte>, rest: seq<byte>)
    requires Dot !in l && 0 < |l| < 0x100
    ensures NameWire(l + [Dot]) == LabelWire(l) + [0, 0]
    ensures DecodeName(NameWire(l + [Dot]) + rest) == Some((l, |l| + 2))
  {
    SplitJoin([l]);
    assert Split(l + [Dot]) == [l] + [[]];
    assert LabelsWire([l] + [[]]) == LabelWire(l) + LabelsWire([[]]);
    assert LabelsWire([[]]) == LabelWire([]) + LabelsWire([]);
    assert LabelsWire([l]) == LabelWire(l) + LabelsWire([]);
    NameRoundTrip(l, [0] + rest);
    assert NameWire(l) == LabelWire(l) + [0];
    assert NameWire(l + [Dot]) + rest == NameWire(l) + ([0] + rest);
  }

  /**
   * A label of 256 bytes gets the length byte 0, the value of the
   * terminator, so a reader sees a name with no label and rejects it.
   */
  lemma LongLabel(l: seq<byte>, rest: seq<byte>)
    requires Dot !in l && |l| == 0x100
    ensures NameWire(l)[0] == 0
    ensures DecodeName(NameWire(l) + rest) == None
  {
    SplitJoin([l]);
    assert LabelsWire([l]) == LabelWire(l) + LabelsWire([]);
    NameWireLength(l);
  }
}
