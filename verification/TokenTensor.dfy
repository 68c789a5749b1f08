/** Flat tensors of one row per token, text after text, and the rows an attention mask shows. */
module TokenTensor {

  /** The values of token `row`. */
  function TokenRow(data: seq<real>, row: nat, width: nat): (r: seq<real>)
    requires row * width + width <= |data|
    ensures |r| == width
  {
    data[row * width..row * width + width]
  }

  /** The tensor has this row at the place. */
  ghost predicate IsRowAt(data: seq<real>, place: nat, width: nat, row: seq<real>) {
    place * width + width <= |data| && data[place * width..place * width + width] == row
  }

  lemma RowOfPlace(data: seq<real>, place: nat, width: nat, row: seq<real>)
    requires IsRowAt(data, place, width, row)
    ensures place * width + width <= |data| && TokenRow(data, place, width) == row
  {
  }

  /** There is a row for every token of the mask. */
  ghost predicate Shaped(data: seq<real>, mask: seq<int>, width: nat) {
    forall row :: 0 <= row < |mask| ==> row * width + width <= |data|
  }

  /** The rows of the first `len` tokens from `first` on, without the masked ones. */
  ghost function VisibleRows(data: seq<real>, mask: seq<int>, first: nat, len: nat, width: nat): (r: seq<seq<real>>)
    requires Shaped(data, mask, width) && first + len <= |mask|
    ensures Wide(r, width)
  {
    if len == 0 then []
    else
      var front := VisibleRows(data, mask, first, len - 1, width);
      if mask[first + len - 1] == 0 then front else front + [TokenRow(data, first + len - 1, width)]
  }

  /** Every token that the mask shows has its row among the shown ones. */
  lemma {:induction false} TokenIsShown(data: seq<real>, mask: seq<int>, first: nat, len: nat, width: nat, s: nat)
    returns (k: nat)
    requires Shaped(data, mask, width) && first + len <= |mask| && s < len && mask[first + s] != 0
    ensures k < |VisibleRows(data, mask, first, len, width)|
    ensures VisibleRows(data, mask, first, len, width)[k] == TokenRow(data, first + s, width)
  {
    hide TokenRow;
    if s == len - 1 {
      k := |VisibleRows(data, mask, first, len, width)| - 1;
    } else {
      k := TokenIsShown(data, mask, first, len - 1, width, s);
    }
  }

  /** And every shown row is that of such a token. */
  lemma {:induction false} ShownIsToken(data: seq<real>, mask: seq<int>, first: nat, len: nat, width: nat, k: nat)
    returns (s: nat)
    requires Shaped(data, mask, width) && first + len <= |mask| && k < |VisibleRows(data, mask, first, len, width)|
    ensures s < len && mask[first + s] != 0
    ensures VisibleRows(data, mask, first, len, width)[k] == TokenRow(data, first + s, width)
  {
    hide TokenRow;
    if k < |VisibleRows(data, mask, first, len - 1, width)| {
      s := ShownIsToken(data, mask, first, len - 1, width, k);
    } else {
      s := len - 1;
    }
  }

  /** Under a mask of ones and then zeros the first rows are shown. */
  lemma {:induction false} ShownPrefix(data: seq<real>, mask: seq<int>, first: nat, len: nat, width: nat,
                                       rows: seq<seq<real>>)
    requires Shaped(data, mask, width) && first + len <= |mask| && |rows| <= len
    requires forall k :: first <= k < first + |rows| ==> mask[k] != 0
    requires forall k :: first + |rows| <= k < first + len ==> mask[k] == 0
    requires forall j :: 0 <= j < |rows| ==> TokenRow(data, first + j, width) == rows[j]
    ensures VisibleRows(data, mask, first, len, width) == rows
  {
    if len > 0 {
      if |rows| == len {
        ShownPrefix(data, mask, first, len - 1, width, rows[..len - 1]);
        assert rows == rows[..len - 1] + [rows[len - 1]];
      } else {
        ShownPrefix(data, mask, first, len - 1, width, rows);
      }
    }
  }

  ghost predicate Wide(rows: seq<seq<real>>, width: nat) {
    forall i :: 0 <= i < |rows| ==> |rows[i]| == width
  }
}
