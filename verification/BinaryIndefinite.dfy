/** The indefinite-length forms of CBOR (section 2.2 of RFC 7049), which the decoder accepts and the encoder never writes. */
module BinaryIndefinite {
  import opened Bytes
  import opened JsonValue
  import opened KeyOrder
  import opened Parts
  import opened BinaryEncode
  import opened BinaryDecode
  import opened BinaryRoundTrip

  /** No item starts with the break byte. */
  lemma NeverBreak(j: Json)
    ensures Encode(Cbor, j) != [] && Encode(Cbor, j)[0] != BREAK
  {
    hide EncodeItems, EncodePairs, SortedKeys, Less, Be, Raw;
  }

  lemma TextNeverBreak(s: string)
    ensures EncodeText(Cbor, s) != [] && EncodeText(Cbor, s)[0] != BREAK
  {
    hide Be, Raw;
  }

  lemma StandsStart(v: seq<byte>, i: nat, part: seq<byte>)
    requires StandsAt(v, i, part) && part != []
    ensures i < |v| && v[i] == part[0]
  {
    StandsElements(v, i, part);
    assert part[0] == v[i + 0];
  }

  lemma BreakStands(v: seq<byte>, i: nat)
    requires StandsAt(v, i, [BREAK])
    ensures i < |v| && v[i] == BREAK
  {
    StandsStart(v, i, [BREAK]);
  }

  lemma {:induction false} ItemsUntil(wide: Widen, j: Json, all: seq<Json>, k: nat, v: seq<byte>, i: nat)
    requires j.Arr? && Fits(Cbor, j) && Canonical(j) == Arr(all) && |all| == |j.items| && k <= |all|
    requires StandsAt(v, i, EncodeItems(Cbor, j, k)) && StandsAt(v, i + |EncodeItems(Cbor, j, k)|, [BREAK])
    ensures i <= |v| && DecodeUntil(Cbor, wide, v, i, all[..k]) == Ok((Arr(all), i + |EncodeItems(Cbor, j, k)| + 1))
    decreases |all| - k
  {
    hide Encode, Decode, StandsAt;
    if k == |all| {
      BreakStands(v, i);
      assert all[..k] == all;
    } else {
      var item := Encode(Cbor, j.items[k]);
      assert Fits(Cbor, j.items[k]) && all[k] == Canonical(j.items[k]);
      hide Fits, Canonical;
      StandsSplit(v, i, item, EncodeItems(Cbor, j, k + 1));
      NeverBreak(j.items[k]);
      StandsStart(v, i, item);
      RoundTripAt(Cbor, wide, j.items[k], v, i);
      ItemsUntil(wide, j, all, k + 1, v, i + |item|);
      assert all[..k] + [all[k]] == all[..k + 1];
    }
  }

  lemma {:induction false} PairsUntil(wide: Widen, j: Json, keys: seq<string>, v: seq<byte>, i: nat)
    requires j.Obj? && Fits(Cbor, j) && (forall k :: k in keys ==> k in j.members)
    requires forall a, b :: 0 <= a < b < |keys| ==> keys[a] != keys[b]
    requires StandsAt(v, i, EncodePairs(Cbor, j, keys)) && StandsAt(v, i + |EncodePairs(Cbor, j, keys)|, [BREAK])
    ensures i <= |v| && DecodePairsUntil(Cbor, wide, v, i, Restricted(j.members, keys))
      == Ok((Obj(Restricted(j.members, [])), i + |EncodePairs(Cbor, j, keys)| + 1))
    decreases |keys|
  {
    hide Encode, EncodeText, Decode, DecodePair, StandsAt, Canonical, Restricted, TextFits;
    if keys == [] {
      BreakStands(v, i);
    } else {
      var m := j.members;
      var k, later := keys[0], EncodePairs(Cbor, j, keys[1..]);
      var name, item := EncodeText(Cbor, k), Encode(Cbor, m[k]);
      assert EncodePairs(Cbor, j, keys) == name + (item + later);
      StandsSplit(v, i, name, item + later);
      StandsSplit(v, i + |name|, item, later);
      TextNeverBreak(k);
      StandsStart(v, i, name);
      PairReads(Cbor, wide, k, m[k], v, i);
      PairsUntil(wide, j, keys[1..], v, i + |name| + |item|);
      RestrictedStep(m, keys);
    }
  }

  function Joined(chunks: seq<string>): string {
    if chunks == [] then "" else chunks[0] + Joined(chunks[1..])
  }

  function EncodeChunks(chunks: seq<string>): seq<byte> {
    if chunks == [] then [] else EncodeText(Cbor, chunks[0]) + EncodeChunks(chunks[1..])
  }

  lemma {:induction false} ChunksUntil(wide: Widen, chunks: seq<string>, done: string, v: seq<byte>, i: nat)
    requires forall c :: c in chunks ==> TextFits(Cbor, c)
    requires StandsAt(v, i, EncodeChunks(chunks)) && StandsAt(v, i + |EncodeChunks(chunks)|, [BREAK])
    ensures i <= |v| && DecodeChunks(Cbor, wide, v, i, done) == Ok((Str(done + Joined(chunks)), i + |EncodeChunks(chunks)| + 1))
    decreases |chunks|
  {
    hide EncodeText, Decode, StandsAt, TextFits;
    if chunks == [] {
      BreakStands(v, i);
      assert done + "" == done;
    } else {
      var part := EncodeText(Cbor, chunks[0]);
      StandsSplit(v, i, part, EncodeChunks(chunks[1..]));
      TextNeverBreak(chunks[0]);
      StandsStart(v, i, part);
      TextReads(Cbor, wide, chunks[0], v, i);
      ChunksUntil(wide, chunks[1..], done + chunks[0], v, i + |part|);
      Regroup(done, chunks[0], Joined(chunks[1..]));
    }
  }

  lemma OpenForm(wide: Widen, v: seq<byte>, i: nat, first: byte)
    requires i < |v| && v[i] == first && first in {0x7f, 0x9f, 0xbf}
    ensures Decode(Cbor, wide, v, i) ==
      if first == 0x7f then DecodeChunks(Cbor, wide, v, i + 1, "")
      else if first == 0x9f then DecodeUntil(Cbor, wide, v, i + 1, [])
      else DecodePairsUntil(Cbor, wide, v, i + 1, map[])
  {
    hide DecodeChunks, DecodeUntil, DecodePairsUntil;
    assert first / 32 == (if first == 0x7f then 3 else if first == 0x9f then 4 else 5) && first % 32 == 31;
  }

  /** An array without a length reads like the same array with its length. */
  lemma IndefiniteList(wide: Widen, j: Json, v: seq<byte>, i: nat)
    requires j.Arr? && Fits(Cbor, j) && StandsAt(v, i, [0x9f] + (EncodeItems(Cbor, j, 0) + [BREAK]))
    ensures Decode(Cbor, wide, v, i) == Ok((Canonical(j), i + |EncodeItems(Cbor, j, 0)| + 2))
  {
    hide Decode, EncodeItems, DecodeUntil, StandsAt, Fits;
    StandsSplit(v, i, [0x9f], EncodeItems(Cbor, j, 0) + [BREAK]);
    StandsSplit(v, i + 1, EncodeItems(Cbor, j, 0), [BREAK]);
    StandsStart(v, i, [0x9f]);
    OpenForm(wide, v, i, 0x9f);
    var all := Canonical(j).items;
    ItemsUntil(wide, j, all, 0, v, i + 1);
    assert all[..0] == [];
  }

  lemma IndefiniteTable(wide: Widen, j: Json, v: seq<byte>, i: nat)
    requires j.Obj? && Fits(Cbor, j) && StandsAt(v, i, [0xbf] + (EncodePairs(Cbor, j, SortedKeys(j.members.Keys)) + [BREAK]))
    ensures Decode(Cbor, wide, v, i) == Ok((Canonical(j), i + |EncodePairs(Cbor, j, SortedKeys(j.members.Keys))| + 2))
  {
    hide Decode, EncodePairs, DecodePairsUntil, StandsAt, Fits, SortedKeys, Less;
    var keys := SortedKeys(j.members.Keys);
    StandsSplit(v, i, [0xbf], EncodePairs(Cbor, j, keys) + [BREAK]);
    StandsSplit(v, i + 1, EncodePairs(Cbor, j, keys), [BREAK]);
    StandsStart(v, i, [0xbf]);
    OpenForm(wide, v, i, 0xbf);
    forall a, b | 0 <= a < b < |keys| ensures keys[a] != keys[b] { SortedDistinct(j.members.Keys, a, b); }
    PairsUntil(wide, j, keys, v, i + 1);
    assert Restricted(j.members, keys) == map[] && Restricted(j.members, []) == Canonical(j).members;
  }

  /** A string in chunks reads as the chunks joined. */
  lemma IndefiniteText(wide: Widen, chunks: seq<string>, v: seq<byte>, i: nat)
    requires (forall c :: c in chunks ==> TextFits(Cbor, c)) && StandsAt(v, i, [0x7f] + (EncodeChunks(chunks) + [BREAK]))
    ensures Decode(Cbor, wide, v, i) == Ok((Str(Joined(chunks)), i + |EncodeChunks(chunks)| + 2))
  {
    hide Decode, EncodeChunks, DecodeChunks, StandsAt, Joined;
    StandsSplit(v, i, [0x7f], EncodeChunks(chunks) + [BREAK]);
    StandsSplit(v, i + 1, EncodeChunks(chunks), [BREAK]);
    StandsStart(v, i, [0x7f]);
    OpenForm(wide, v, i, 0x7f);
    ChunksUntil(wide, chunks, "", v, i + 1);
    assert "" + Joined(chunks) == Joined(chunks);
  }
}
