/** A TOKEN_GROUPS buffer written out in the layout `Groups::from_buf`
    reads: the count, one record per group, then the SIDs the records refer
    to. Decoding such a buffer gives the group list back. */
module GroupsLayout {
  import opened Wrappers
  import opened Bytes
  import opened Security
  import opened Token
  import opened Information

  // ---------------------------------------------------------------------
  // Concatenation of pieces, for any element type

  /** The pieces, one after the other. */
  function Concat<T>(xs: seq<seq<T>>): seq<T>
  {
    if xs == [] then [] else xs[0] + Concat(xs[1..])
  }

  /** Where piece `i` starts inside `Concat(xs)`. */
  function Offset<T>(xs: seq<seq<T>>, i: nat): nat
    requires i <= |xs|
  {
    |Concat(xs[..i])|
  }

  /** Concatenation distributes over a split of the pieces. */
  lemma {:induction false} ConcatSplit<T>(xs: seq<seq<T>>, i: nat)
    requires i <= |xs|
    ensures Concat(xs) == Concat(xs[..i]) + Concat(xs[i..])
    decreases i
  {
    if i > 0 {
      ConcatSplit(xs[1..], i - 1);
      assert xs[..i][0] == xs[0] && xs[..i][1..] == xs[1..][..i - 1];
      assert xs[1..][i - 1..] == xs[i..];
    }
  }

  /** Piece `i` sits at `Offset(xs, i)`, followed by the later pieces. */
  lemma PieceAt<T>(xs: seq<seq<T>>, i: nat)
    requires i < |xs|
    ensures Offset(xs, i) + |xs[i]| <= |Concat(xs)|
    ensures Concat(xs)[Offset(xs, i)..] == xs[i] + Concat(xs[i + 1..])
  {
    ConcatSplit(xs, i);
    assert xs[i..][0] == xs[i] && xs[i..][1..] == xs[i + 1..];
  }

  /** Pieces that all have length `w` start every `w` elements. */
  lemma {:induction false} UniformOffset<T>(xs: seq<seq<T>>, w: nat, i: nat)
    requires forall j :: 0 <= j < |xs| ==> |xs[j]| == w
    requires i <= |xs|
    ensures Offset(xs, i) == w * i
    decreases i
  {
    if i > 0 {
      var ys := xs[..i];
      assert ys[1..] == xs[1..][..i - 1];
      UniformOffset(xs[1..], w, i - 1);
    }
  }

  /** Piece `i` of a concatenation of equal-length pieces is the slice
      `[w * i, w * i + w)`. */
  lemma UniformPiece<T>(xs: seq<seq<T>>, w: nat, i: nat)
    requires forall j :: 0 <= j < |xs| ==> |xs[j]| == w
    requires i < |xs|
    ensures w * i + w <= |Concat(xs)|
    ensures Concat(xs)[w * i..w * i + w] == xs[i]
  {
    PieceAt(xs, i);
    UniformOffset(xs, w, i);
    var c := Concat(xs);
    assert c[w * i..][..w] == c[w * i..w * i + w];
  }

  // ---------------------------------------------------------------------
  // The TOKEN_GROUPS layout

  /** One record: the offset of a SID and an attribute word, read back
      as the offset at byte 0 and the attributes at byte 4. */
  function Record(offset: nat, attributes: bv32): (r: seq<bv8>)
    requires offset < 0x1_0000_0000
    ensures |r| == 8
    ensures U32Value(r, 0) == offset && U32At(r, 4) == attributes
  {
    var lo := LeBytesOf(offset);
    var hi := LeBytes32(attributes);
    U32ValueSlice(lo + hi, 0, 0, 4);
    assert (lo + hi)[0..4] == lo;
    U32AtSlice(lo + hi, 4, 4, 8);
    assert (lo + hi)[4..8] == hi;
    lo + hi
  }

  /** Every SID of the list fits the one-byte count field. */
  predicate AllEncodable(es: seq<GroupEntry>)
  {
    forall i :: 0 <= i < |es| ==> Encodable(es[i].sid)
  }

  /** The SID packets of the list, in order. */
  function Packets(es: seq<GroupEntry>): (ps: seq<seq<bv8>>)
    requires AllEncodable(es)
    ensures |ps| == |es|
  {
    seq(|es|, i requires 0 <= i < |es| => Encode(es[i].sid))
  }

  /** A list small enough that every offset fits in 32 bits. */
  predicate GroupsEncodable(es: seq<GroupEntry>)
  {
    AllEncodable(es) && RecordOffset(|es|) + |Concat(Packets(es))| < 0x1_0000_0000
  }

  /** The offset in the buffer of the SID of entry `i`. */
  function SidOffset(es: seq<GroupEntry>, i: nat): (o: nat)
    requires GroupsEncodable(es) && i < |es|
    ensures o < 0x1_0000_0000
  {
    PieceAt(Packets(es), i);
    RecordOffset(|es|) + Offset(Packets(es), i)
  }

  /** The records, one per entry. */
  function Records(es: seq<GroupEntry>): (rs: seq<seq<bv8>>)
    requires GroupsEncodable(es)
    ensures |rs| == |es|
    ensures forall i :: 0 <= i < |rs| ==> |rs[i]| == 8
  {
    seq(|es|, i requires 0 <= i < |es| => Record(SidOffset(es, i), es[i].attributes))
  }

  /** The whole buffer: count, records, SIDs. */
  function EncodeGroups(es: seq<GroupEntry>): (buf: seq<bv8>)
    requires GroupsEncodable(es)
  {
    LeBytesOf(|es|) + Concat(Records(es)) + Concat(Packets(es))
  }

  /** A piece of equal-length pieces, placed behind a prefix. */
  lemma MiddlePiece<T>(a: seq<T>, xs: seq<seq<T>>, b: seq<T>, w: nat, i: nat)
    requires forall j :: 0 <= j < |xs| ==> |xs[j]| == w
    requires i < |xs|
    ensures |a| + w * i + w <= |a + Concat(xs) + b|
    ensures (a + Concat(xs) + b)[|a| + w * i..|a| + w * i + w] == xs[i]
  {
    UniformPiece(xs, w, i);
    var c := Concat(xs);
    assert (a + c + b)[|a| + w * i..|a| + w * i + w] == c[w * i..w * i + w];
  }

  lemma SuffixOfConcat<T>(a: seq<T>, b: seq<T>, p: nat)
    requires p <= |b|
    ensures (a + b)[|a| + p..] == b[p..]
  {
  }

  lemma PrefixOfConcat<T>(a: seq<T>, b: seq<T>, c: seq<T>)
    ensures (a + b + c)[..|a|] == a
  {
  }

  /** An encoded buffer is the count, 8 bytes per record and the SIDs. */
  lemma EncodedLength(es: seq<GroupEntry>)
    requires GroupsEncodable(es)
    ensures |EncodeGroups(es)| == RecordOffset(|es|) + |Concat(Packets(es))|
  {
    UniformOffset(Records(es), 8, |es|);
    assert Records(es)[..|es|] == Records(es);
  }

  /** The count of an encoded buffer is the number of entries. */
  lemma CountBack(es: seq<GroupEntry>)
    requires GroupsEncodable(es)
    ensures |EncodeGroups(es)| == RecordOffset(|es|) + |Concat(Packets(es))|
    ensures GroupCount(EncodeGroups(es)) == |es|
  {
    EncodedLength(es);
    var count := LeBytesOf(|es|);
    var buf := EncodeGroups(es);
    PrefixOfConcat(count, Concat(Records(es)), Concat(Packets(es)));
    U32ValueSlice(buf, 0, 0, 4);
  }

  /** Record `i` of an encoded buffer refers to the SID of entry `i` and
      carries its attribute bits. */
  lemma RecordBack(es: seq<GroupEntry>, i: nat)
    requires GroupsEncodable(es) && i < |es|
    ensures var buf := EncodeGroups(es);
      && RecordOffset(i) + 8 <= |buf|
      && SidReference(buf, i) == SidOffset(es, i)
      && AttributesAt(buf, i) == es[i].attributes
  {
    var buf := EncodeGroups(es);
    var off := RecordOffset(i);
    MiddlePiece(LeBytesOf(|es|), Records(es), Concat(Packets(es)), 8, i);
    var r := buf[off..off + 8];
    assert r == Records(es)[i];
    U32ValueSlice(buf, off, off, off + 8);
    U32AtSlice(buf, off + 4, off, off + 8);
  }

  /** The SID of entry `i` of an encoded buffer, and the later SIDs behind
      it. */
  lemma SidBack(es: seq<GroupEntry>, i: nat)
    requires GroupsEncodable(es) && i < |es|
    ensures var buf := EncodeGroups(es);
      && SidOffset(es, i) <= |buf|
      && buf[SidOffset(es, i)..] == Encode(es[i].sid) + Concat(Packets(es)[i + 1..])
  {
    var ps := Packets(es);
    var head := LeBytesOf(|es|) + Concat(Records(es));
    CountBack(es);
    PieceAt(ps, i);
    SuffixOfConcat(head, Concat(ps), Offset(ps, i));
  }

  /** Entry `i` decodes back from the encoded buffer, and its record and
      SID lie inside it. */
  lemma EntryRoundTrip(es: seq<GroupEntry>, i: nat)
    requires GroupsEncodable(es) && i < |es|
    ensures |EncodeGroups(es)| >= 4 && GroupCount(EncodeGroups(es)) == |es|
    ensures RecordInBounds(EncodeGroups(es), i)
    ensures var buf := EncodeGroups(es);
      GroupsInBounds(buf) ==> Groups(buf)[i] == es[i]
  {
    var buf := EncodeGroups(es);
    CountBack(es);
    RecordBack(es, i);
    SidBack(es, i);
    DecodeEncode(es[i].sid, Concat(Packets(es)[i + 1..]));
  }

  /** Every read of the decoder stays inside an encoded buffer. */
  lemma EncodedInBounds(es: seq<GroupEntry>)
    requires GroupsEncodable(es)
    ensures GroupsInBounds(EncodeGroups(es))
  {
    var buf := EncodeGroups(es);
    CountBack(es);
    forall i | 0 <= i < |es|
      ensures RecordInBounds(buf, i)
    {
      EntryRoundTrip(es, i);
    }
  }

  /** Decoding an encoded group list gives the list back: as many entries,
      in the same order, each with its SID and its attribute bits. */
  lemma GroupsRoundTrip(es: seq<GroupEntry>)
    requires GroupsEncodable(es)
    ensures GroupsFromBuf(EncodeGroups(es)) == Decoded(Some(es))
  {
    var buf := EncodeGroups(es);
    CountBack(es);
    EncodedInBounds(es);
    var gs := Groups(buf);
    forall i | 0 <= i < |es|
      ensures gs[i] == es[i]
    {
      EntryRoundTrip(es, i);
    }
    assert gs == es;
  }
}
