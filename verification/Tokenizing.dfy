/** Batch encoding as the tokenizer does it, and the flat tensors the sessions take: padding to the longest text
    of the batch, an attention mask over the real tokens, rows laid out one after the other. */
module Tokenizing {
  import opened Sequences
  import opened Batching

  datatype Encoding = Encoding(ids: seq<seq<int>>, mask: seq<seq<int>>, seqLen: nat)

  /** Encoding a text may throw; `throws` says for which texts it does. */
  datatype Tokenizer = Tokenizer(encodeSingle: string -> seq<int>, throws: string -> bool, maxLength: nat, padId: int)

  /** A batch is encoded text by text, so one text that throws fails the batch. */
  predicate Encodes(tok: Tokenizer, texts: seq<string>) {
    forall t :: t in texts ==> !tok.throws(t)
  }

  function LongestEncoding(tok: Tokenizer, texts: seq<string>): nat {
    if texts == [] then 0
    else
      var longest := LongestEncoding(tok, texts[..|texts| - 1]);
      var last := |tok.encodeSingle(texts[|texts| - 1])|;
      if last > longest then last else longest
  }

  function PadRow(ids: seq<int>, len: nat, padId: int): (r: seq<int>)
    ensures |r| == len
  {
    seq(len, j => if 0 <= j < |ids| then ids[j] else padId)
  }

  function MaskRow(ids: seq<int>, len: nat): (r: seq<int>)
    ensures |r| == len
  {
    seq(len, j => if j < |ids| then 1 else 0)
  }

  /** Pads every encoding to the longest of the batch, capped at the tokenizer's maximum. */
  function EncodeBatch(tok: Tokenizer, texts: seq<string>): (e: Encoding)
    ensures |e.ids| == |e.mask| == |texts|
    ensures forall i :: 0 <= i < |texts| ==> |e.ids[i]| == |e.mask[i]| == e.seqLen
  {
    var len := Min(LongestEncoding(tok, texts), tok.maxLength);
    Encoding(Map(t => PadRow(tok.encodeSingle(t), len, tok.padId), texts),
             Map(t => MaskRow(tok.encodeSingle(t), len), texts), len)
  }

  /** The tokens the attention mask lets the model see. */
  function Visible(ids: seq<int>, mask: seq<int>): seq<int>
    requires |ids| == |mask|
  {
    if ids == [] then []
    else if mask[0] != 0 then [ids[0]] + Visible(ids[1..], mask[1..])
    else Visible(ids[1..], mask[1..])
  }

  function Truncated(ids: seq<int>, maxLength: nat): seq<int> {
    ids[..Min(|ids|, maxLength)]
  }

  /** The tokens are the encoding, or its first ones when it is longer than the maximum. */
  predicate IsCut(tokens: seq<int>, ids: seq<int>, maxLength: nat) {
    tokens <= ids && |tokens| <= maxLength && (|tokens| == |ids| || |tokens| == maxLength)
  }

  lemma TruncatedIsCut(tokens: seq<int>, ids: seq<int>, maxLength: nat)
    ensures IsCut(tokens, ids, maxLength) <==> tokens == Truncated(ids, maxLength)
  {
  }

  lemma {:induction false} VisibleOfPadded(ids: seq<int>, len: nat, padId: int)
    ensures Visible(PadRow(ids, len, padId), MaskRow(ids, len)) == ids[..Min(|ids|, len)]
    decreases len
  {
    if len > 0 {
      var tail := if ids == [] then [] else ids[1..];
      assert PadRow(ids, len, padId)[1..] == PadRow(tail, len - 1, padId);
      assert MaskRow(ids, len)[1..] == MaskRow(tail, len - 1);
      VisibleOfPadded(tail, len - 1, padId);
    }
  }

  lemma {:induction false} LongestIsUpperBound(tok: Tokenizer, texts: seq<string>, i: nat)
    requires i < |texts|
    ensures |tok.encodeSingle(texts[i])| <= LongestEncoding(tok, texts)
  {
    if i < |texts| - 1 {
      LongestIsUpperBound(tok, texts[..|texts| - 1], i);
    }
  }

  /** Padding adds nothing the model can see: each row shows its own encoding, whatever the rest of the batch is. */
  lemma {:induction false} EncodedRow(tok: Tokenizer, texts: seq<string>, i: nat)
    requires i < |texts|
    ensures var e := EncodeBatch(tok, texts);
      Visible(e.ids[i], e.mask[i]) == Truncated(tok.encodeSingle(texts[i]), tok.maxLength)
  {
    LongestIsUpperBound(tok, texts, i);
    VisibleOfPadded(tok.encodeSingle(texts[i]), EncodeBatch(tok, texts).seqLen, tok.padId);
  }

  // ----- what the sessions are sent -----

  function Zeros(n: nat): seq<int> { Copies(n, 0) }

  /** The `len` cells from `base` on hold a row of tokens: the tokens under ones, then padding under zeros. */
  ghost predicate HoldsRow(ids: seq<int>, mask: seq<int>, base: nat, len: nat, row: seq<int>, padId: int) {
    && |row| <= len && base + len <= |ids| == |mask|
    && ids[base..base + len] == row + Copies(len - |row|, padId)
    && mask[base..base + len] == Copies(|row|, 1) + Copies(len - |row|, 0)
  }

  /** Then the mask shows exactly the tokens. */
  lemma {:induction false} MaskOfRow(ids: seq<int>, mask: seq<int>, base: nat, len: nat, row: seq<int>, padId: int)
    requires HoldsRow(ids, mask, base, len, row, padId)
    ensures base + len <= |mask|
    ensures forall k :: base <= k < base + |row| ==> mask[k] == 1
    ensures forall k :: base + |row| <= k < base + len ==> mask[k] == 0
  {
    forall k | base <= k < base + len ensures mask[k] == if k < base + |row| then 1 else 0 {
      assert mask[k] == mask[base..base + len][k - base];
    }
  }

  /** The flat tensors of a batch of token rows: row after row, padded to the longest, with all type ids zero. */
  ghost predicate SentAs(rows: seq<seq<int>>, padId: int, ids: seq<int>, mask: seq<int>, types: seq<int>, len: nat) {
    && |ids| == |mask| == |rows| * len && types == Copies(|rows| * len, 0)
    && (forall i :: 0 <= i < |rows| ==> HoldsRow(ids, mask, i * len, len, rows[i], padId))
    && (len == 0 || exists i :: 0 <= i < |rows| && |rows[i]| == len)
  }

  function Longest(rows: seq<seq<int>>): nat {
    if rows == [] then 0
    else
      var longest := Longest(rows[..|rows| - 1]);
      var last := |rows[|rows| - 1]|;
      if last > longest then last else longest
  }

  /** Token rows padded to the longest of them: in every row the tokens first, under ones, then padding, under zeros. */
  function Padded(rows: seq<seq<int>>, padId: int): (e: Encoding)
    ensures |e.ids| == |e.mask| == |rows|
    ensures forall i :: 0 <= i < |rows| ==> |e.ids[i]| == |e.mask[i]| == e.seqLen
  {
    var len := Longest(rows);
    Encoding(Map(row => PadRow(row, len, padId), rows), Map(row => MaskRow(row, len), rows), len)
  }

  /** The tokens of every text that reach the model. */
  function TokenRows(tok: Tokenizer, texts: seq<string>): (r: seq<seq<int>>)
    ensures |r| == |texts|
    ensures forall i :: 0 <= i < |texts| ==> r[i] == Truncated(tok.encodeSingle(texts[i]), tok.maxLength)
  {
    Map(t => Truncated(tok.encodeSingle(t), tok.maxLength), texts)
  }

  lemma {:induction false} LongestTokenRow(tok: Tokenizer, texts: seq<string>)
    ensures Longest(TokenRows(tok, texts)) == Min(LongestEncoding(tok, texts), tok.maxLength)
  {
    if texts != [] {
      var n := |texts| - 1;
      assert TokenRows(tok, texts)[..n] == TokenRows(tok, texts[..n]);
      LongestTokenRow(tok, texts[..n]);
    }
  }

  lemma {:induction false} LongestIs(rows: seq<seq<int>>)
    ensures forall i :: 0 <= i < |rows| ==> |rows[i]| <= Longest(rows)
    ensures Longest(rows) == 0 || exists i :: 0 <= i < |rows| && |rows[i]| == Longest(rows)
  {
    if rows != [] {
      var front := rows[..|rows| - 1];
      LongestIs(front);
      assert forall i :: 0 <= i < |front| ==> rows[i] == front[i];
      assert |rows[|rows| - 1]| <= Longest(rows);
    }
  }

  /** Padded rows laid out flat are the tensors of the batch. */
  lemma {:induction false} PaddedIsSent(rows: seq<seq<int>>, padId: int)
    ensures var e := Padded(rows, padId);
      SentAs(rows, padId, Flatten(e.ids), Flatten(e.mask), Zeros(|rows| * e.seqLen), e.seqLen)
  {
    var e := Padded(rows, padId);
    LongestIs(rows);
    FlattenSize(e.ids, e.seqLen);
    FlattenSize(e.mask, e.seqLen);
    forall i | 0 <= i < |rows|
      ensures HoldsRow(Flatten(e.ids), Flatten(e.mask), i * e.seqLen, e.seqLen, rows[i], padId)
    {
      PaddedRowHeld(rows, padId, i);
    }
    hide Flatten, HoldsRow, PadRow, MaskRow, Longest;
  }

  lemma {:induction false} PaddedRowHeld(rows: seq<seq<int>>, padId: int, i: nat)
    requires i < |rows|
    ensures var e := Padded(rows, padId);
      HoldsRow(Flatten(e.ids), Flatten(e.mask), i * e.seqLen, e.seqLen, rows[i], padId)
  {
    var e := Padded(rows, padId);
    LongestIs(rows);
    FlattenSize(e.ids, e.seqLen);
    FlattenSize(e.mask, e.seqLen);
    FlattenRows(e.ids, e.seqLen, i);
    FlattenRows(e.mask, e.seqLen, i);
    hide Flatten, HoldsRow, PadRow, MaskRow, Longest, RowOf;
    RowHeld(Flatten(e.ids), Flatten(e.mask), i, e.seqLen, rows[i], padId);
  }

  lemma {:induction false} SameHeldRows(ids: seq<int>, mask: seq<int>, ids': seq<int>, mask': seq<int>,
                                        rows: seq<seq<int>>, n: nat, padId: int, len: nat)
    requires n <= |rows| && n * len <= |ids| == |mask| && n * len <= |ids'| == |mask'|
    requires forall i :: 0 <= i < n ==> HoldsRow(ids, mask, i * len, len, rows[i], padId)
    requires forall i :: 0 <= i < n ==> HoldsRow(ids', mask', i * len, len, rows[i], padId)
    ensures ids[..n * len] == ids'[..n * len] && mask[..n * len] == mask'[..n * len]
  {
    if n > 0 {
      var base := (n - 1) * len;
      assert n * len == base + len;
      SameHeldRows(ids, mask, ids', mask', rows, n - 1, padId, len);
      assert HoldsRow(ids, mask, base, len, rows[n - 1], padId);
      assert HoldsRow(ids', mask', base, len, rows[n - 1], padId);
      PrefixesAgree(ids, ids', base, len);
      PrefixesAgree(mask, mask', base, len);
    }
  }

  lemma PrefixesAgree(x: seq<int>, y: seq<int>, base: nat, len: nat)
    requires base + len <= |x| && base + len <= |y|
    requires x[..base] == y[..base] && x[base..base + len] == y[base..base + len]
    ensures x[..base + len] == y[..base + len]
  {
    assert x[..base + len] == x[..base] + x[base..base + len];
    assert y[..base + len] == y[..base] + y[base..base + len];
  }

  /** The rows determine the tensors of the batch. */
  lemma {:induction false} SentOneWay(rows: seq<seq<int>>, padId: int, ids: seq<int>, mask: seq<int>, types: seq<int>,
                                      len: nat, ids': seq<int>, mask': seq<int>, types': seq<int>, len': nat)
    requires SentAs(rows, padId, ids, mask, types, len) && SentAs(rows, padId, ids', mask', types', len')
    ensures len == len' && ids == ids' && mask == mask' && types == types'
  {
    SentLength(rows, padId, ids, mask, types, len, ids', mask', types', len');
    SentLength(rows, padId, ids', mask', types', len', ids, mask, types, len);
    SameHeldRows(ids, mask, ids', mask', rows, |rows|, padId, len);
    assert ids[..|ids|] == ids && ids'[..|ids'|] == ids' && mask[..|mask|] == mask && mask'[..|mask'|] == mask';
  }

  lemma SentRow(rows: seq<seq<int>>, padId: int, ids: seq<int>, mask: seq<int>, types: seq<int>, len: nat, i: nat)
    requires SentAs(rows, padId, ids, mask, types, len) && i < |rows|
    ensures HoldsRow(ids, mask, i * len, len, rows[i], padId)
  {
    hide HoldsRow;
  }

  lemma {:induction false} SentLength(rows: seq<seq<int>>, padId: int, ids: seq<int>, mask: seq<int>, types: seq<int>,
                                      len: nat, ids': seq<int>, mask': seq<int>, types': seq<int>, len': nat)
    requires SentAs(rows, padId, ids, mask, types, len) && SentAs(rows, padId, ids', mask', types', len')
    ensures len <= len'
  {
    if len > 0 {
      var i :| 0 <= i < |rows| && |rows[i]| == len;
      assert HoldsRow(ids', mask', i * len', len', rows[i], padId);
    }
  }

  /** The tensors that an encoded batch is flattened to, and its padded length. */
  ghost function TensorsOf(tok: Tokenizer, texts: seq<string>): (seq<int>, seq<int>, seq<int>, nat) {
    var e := EncodeBatch(tok, texts);
    (Flatten(e.ids), Flatten(e.mask), Zeros(|texts| * e.seqLen), e.seqLen)
  }

  /** Whatever tensors hold the tokens of the texts, each text's encoding cut at the maximum length, are those that the
      encoded batch is flattened to. */
  lemma {:induction false} SentIsEncoded(tok: Tokenizer, texts: seq<string>, rows: seq<seq<int>>, ids: seq<int>,
                                         mask: seq<int>, types: seq<int>, len: nat)
    requires |rows| == |texts| && SentAs(rows, tok.padId, ids, mask, types, len)
    requires forall i :: 0 <= i < |rows| ==> IsCut(rows[i], tok.encodeSingle(texts[i]), tok.maxLength)
    ensures (ids, mask, types, len) == TensorsOf(tok, texts)
  {
    forall i | 0 <= i < |rows| ensures rows[i] == TokenRows(tok, texts)[i] {
      TruncatedIsCut(rows[i], tok.encodeSingle(texts[i]), tok.maxLength);
    }
    assert rows == TokenRows(tok, texts);
    EncodedIsPadded(tok, texts);
    PaddedIsSent(rows, tok.padId);
    var e := Padded(rows, tok.padId);
    hide SentAs, EncodeBatch, Padded, Flatten, Zeros;
    SentOneWay(rows, tok.padId, ids, mask, types, len, Flatten(e.ids), Flatten(e.mask), Zeros(|rows| * e.seqLen),
               e.seqLen);
  }

  lemma {:induction false} RowHeld(ids: seq<int>, mask: seq<int>, i: nat, len: nat, row: seq<int>, padId: int)
    requires (i + 1) * len <= |ids| == |mask| && |row| <= len
    requires RowOf(ids, i, len) == PadRow(row, len, padId) && RowOf(mask, i, len) == MaskRow(row, len)
    ensures HoldsRow(ids, mask, i * len, len, row, padId)
  {
    assert (i + 1) * len == i * len + len;
    assert PadRow(row, len, padId) == row + Copies(len - |row|, padId);
    assert MaskRow(row, len) == Copies(|row|, 1) + Copies(len - |row|, 0);
  }

  /** A batch the tokenizer encodes depends on the rows of tokens alone, and is those rows padded to the longest. */
  lemma {:induction false} EncodedIsPadded(tok: Tokenizer, texts: seq<string>)
    ensures EncodeBatch(tok, texts) == Padded(TokenRows(tok, texts), tok.padId)
  {
    LongestTokenRow(tok, texts);
    var e, p := EncodeBatch(tok, texts), Padded(TokenRows(tok, texts), tok.padId);
    forall i | 0 <= i < |texts| ensures e.ids[i] == p.ids[i] && e.mask[i] == p.mask[i] {
      assert TokenRows(tok, texts)[i] == Truncated(tok.encodeSingle(texts[i]), tok.maxLength);
    }
  }

  /** The rows of the flattened batch. */
  function RowOf(flat: seq<int>, row: nat, len: nat): seq<int>
    requires (row + 1) * len <= |flat|
  {
    assert (row + 1) * len == row * len + len;
    flat[row * len..row * len + len]
  }

  /** Row i of the flattened batch, cells i * len to i * len + len, is the encoded row i. */
  lemma {:induction false} FlattenRows(rows: seq<seq<int>>, len: nat, i: nat)
    requires i < |rows| && forall r :: 0 <= r < |rows| ==> |rows[r]| == len
    ensures |Flatten(rows)| == |rows| * len
    ensures (i + 1) * len <= |Flatten(rows)| && RowOf(Flatten(rows), i, len) == rows[i]
  {
    FlattenSize(rows, len);
    FlattenSize(rows[..i], len);
    Product(i + 1, |rows|, len);
    assert (i + 1) * len == i * len + len;
    FlattenNext(rows, i);
    FlattenSplit(rows, i + 1);
    hide Flatten;
    MiddleSlice(Flatten(rows[..i]), rows[i], Flatten(rows[i + 1..]));
  }

  lemma {:induction false} FlattenSplit<T>(rows: seq<seq<T>>, i: nat)
    requires i <= |rows|
    ensures Flatten(rows) == Flatten(rows[..i]) + Flatten(rows[i..])
  {
    assert rows == rows[..i] + rows[i..];
    FlattenConcat(rows[..i], rows[i..]);
  }

  lemma MiddleSlice<T>(a: seq<T>, b: seq<T>, c: seq<T>)
    ensures (a + b + c)[|a|..|a| + |b|] == b
  {
  }

  /** Copies one encoded row into both flat tensors, starting at `base`. */
  method CopyRow(idsFlat: array<int>, maskFlat: array<int>, base: nat, ids: seq<int>, mask: seq<int>)
    requires |ids| == |mask| && base + |ids| <= idsFlat.Length == maskFlat.Length && idsFlat != maskFlat
    modifies idsFlat, maskFlat
    ensures idsFlat[..][..base + |ids|] == old(idsFlat[..])[..base] + ids
    ensures maskFlat[..][..base + |ids|] == old(maskFlat[..])[..base] + mask
  {
    for j := 0 to |ids|
      invariant idsFlat[..base + j] == old(idsFlat[..base]) + ids[..j]
      invariant maskFlat[..base + j] == old(maskFlat[..base]) + mask[..j]
    {
      idsFlat[base + j], maskFlat[base + j] := ids[j], mask[j];
    }
  }

  /** The flat tensor holds the first i rows in its first `base` cells, and there is room for all of them. */
  ghost predicate StartsWithRows(flat: seq<int>, rows: seq<seq<int>>, i: nat, base: nat)
    requires i <= |rows|
  {
    |flat| == |Flatten(rows)| && base == |Flatten(rows[..i])| && base <= |flat| && flat[..base] == Flatten(rows[..i])
  }

  lemma {:induction false} NextRowFits(flat: seq<int>, rows: seq<seq<int>>, i: nat, base: nat)
    requires i < |rows| && StartsWithRows(flat, rows, i, base)
    ensures base + |rows[i]| <= |flat|
  {
    FlattenNext(rows, i);
  }

  lemma {:induction false} RowWritten(before: seq<int>, after: seq<int>, rows: seq<seq<int>>, i: nat, base: nat)
    requires i < |rows| && StartsWithRows(before, rows, i, base) && |after| == |before|
    requires base + |rows[i]| <= |after| && after[..base + |rows[i]|] == before[..base] + rows[i]
    ensures StartsWithRows(after, rows, i + 1, base + |rows[i]|)
  {
    hide Flatten;
    FlattenNext(rows, i);
  }

  /** The flat tensors hold the encoded rows one after the other. */
  method FlattenBatch(e: Encoding) returns (idsFlat: array<int>, maskFlat: array<int>)
    requires |e.ids| == |e.mask| && forall i :: 0 <= i < |e.ids| ==> |e.ids[i]| == |e.mask[i]| == e.seqLen
    ensures idsFlat[..] == Flatten(e.ids) && maskFlat[..] == Flatten(e.mask)
    ensures fresh(idsFlat) && fresh(maskFlat)
  {
    var n, len := |e.ids|, e.seqLen;
    FlattenSize(e.ids, len);
    FlattenSize(e.mask, len);
    idsFlat, maskFlat := new int[n * len], new int[n * len];
    assert Flatten(e.ids[..0]) == [] && Flatten(e.mask[..0]) == [];
    hide Flatten;
    var base: nat := 0;
    for i := 0 to n
      invariant StartsWithRows(idsFlat[..], e.ids, i, base) && StartsWithRows(maskFlat[..], e.mask, i, base)
    {
      NextRowFits(idsFlat[..], e.ids, i, base);
      NextRowFits(maskFlat[..], e.mask, i, base);
      ghost var ids, mask := idsFlat[..], maskFlat[..];
      CopyRow(idsFlat, maskFlat, base, e.ids[i], e.mask[i]);
      RowWritten(ids, idsFlat[..], e.ids, i, base);
      RowWritten(mask, maskFlat[..], e.mask, i, base);
      hide StartsWithRows;
      base := base + len;
    }
    assert e.ids[..n] == e.ids && e.mask[..n] == e.mask;
  }

  lemma {:induction false} FlattenSize<T>(rows: seq<seq<T>>, len: nat)
    requires forall r :: 0 <= r < |rows| ==> |rows[r]| == len
    ensures |Flatten(rows)| == |rows| * len
  {
    if rows != [] {
      FlattenSize(rows[..|rows| - 1], len);
      assert |rows| * len == (|rows| - 1) * len + len;
    }
  }

  lemma {:induction false} FlattenNext<T>(rows: seq<seq<T>>, i: nat)
    requires i < |rows|
    ensures Flatten(rows[..i + 1]) == Flatten(rows[..i]) + rows[i]
    ensures |Flatten(rows[..i + 1])| <= |Flatten(rows)|
  {
    assert rows[..i + 1][..i] == rows[..i];
    assert rows == rows[..i + 1] + rows[i + 1..];
    FlattenConcat(rows[..i + 1], rows[i + 1..]);
  }
}
