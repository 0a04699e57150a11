/** The integer layout of the round screen (src/round.rs, `draw`): a column inset by a fifth of
    the frame's width on each side, as many rows as the shown text needs, centred vertically.
    Terminal sizes are `u16`; the widgets and styles around it are not part of this model. */
module Layout {
  import opened Wrappers

  const U16Limit: nat := 0x1_0000

  datatype Rect = Rect(x: nat, y: nat, width: nat, height: nat)

  /** A frame the round is drawn into: the driver draws only when it is wider than 20 columns
      and taller than 5 rows. */
  predicate Drawable(frameWidth: nat, frameHeight: nat) {
    20 < frameWidth < U16Limit && 5 < frameHeight < U16Limit
  }

  /** The column's inset on each side, `width * 20 / 100`: a fifth of the frame's width,
      rounded down. */
  function Inset(frameWidth: nat): (x: nat)
    ensures 5 * x <= frameWidth < 5 * (x + 1)
  {
    frameWidth * 20 / 100
  }

  /** The width left between the two insets. */
  function ColumnWidth(frameWidth: nat): (width: nat)
    requires 0 < frameWidth
    ensures 0 < width && 2 * Inset(frameWidth) + width == frameWidth
  {
    frameWidth - 2 * Inset(frameWidth)
  }

  /** The area as src/round.rs:88-91 computes it in `u16`, where an arithmetic overflow stops
      the program (`None`): the product `width * 20`, the `+ 1` after the truncating `as u16`
      cast, and the difference `outer_size.height - height` when the text needs more rows
      than the frame has. */
  function RoundAreaAsWritten(frameWidth: nat, frameHeight: nat, textBytes: nat, errorBytes: nat): (r: Option<Rect>)
    requires Drawable(frameWidth, frameHeight)
    ensures frameWidth * 20 >= U16Limit ==> r.None?
    ensures r.Some? ==> 2 * r.value.x + r.value.width == frameWidth && 0 < r.value.width
    ensures r.Some? ==> 1 <= r.value.height && r.value.y + r.value.height <= frameHeight
  {
    if frameWidth * 20 >= U16Limit then None
    else
      var width := ColumnWidth(frameWidth);
      RowsAsWritten(frameHeight, Inset(frameWidth), width, ((textBytes + errorBytes) / width) % U16Limit)
  }

  /** The rest of the computation once the row count `rows` (already cut to `u16`) is known:
      the `+ 1` and the centring subtraction, each stopping the program on overflow. */
  function RowsAsWritten(frameHeight: nat, x: nat, width: nat, rows: nat): (r: Option<Rect>)
    ensures r.Some? ==> r.value == Rect(x, r.value.y, width, rows + 1)
    ensures r.Some? <==> rows + 1 < U16Limit && rows + 1 <= frameHeight
    ensures r.Some? ==> r.value.y + r.value.height <= frameHeight
  {
    if rows + 1 >= U16Limit then None
    else
      var height := rows + 1;
      if height > frameHeight then None
      else Some(Rect(x, (frameHeight - height) / 2, width, height))
  }

  /** The area computed without overflow and with the height clamped to the frame: a column
      inset equally on both sides, at least one row tall, as tall as the text needs when that
      fits, and centred vertically inside the frame. */
  function RoundArea(frameWidth: nat, frameHeight: nat, textBytes: nat, errorBytes: nat): (r: Rect)
    requires Drawable(frameWidth, frameHeight)
    ensures 2 * r.x + r.width == frameWidth && 0 < r.width
    ensures 5 * r.x <= frameWidth < 5 * (r.x + 1)
    ensures 1 <= r.height && r.y + r.height <= frameHeight
    ensures r.y <= frameHeight - (r.y + r.height) <= r.y + 1
    ensures (textBytes + errorBytes) / r.width + 1 <= frameHeight ==>
              r.height == (textBytes + errorBytes) / r.width + 1
    ensures (textBytes + errorBytes) / r.width + 1 > frameHeight ==>
              r.height == frameHeight && r.y == 0
  {
    var width := ColumnWidth(frameWidth);
    var needed := (textBytes + errorBytes) / width + 1;
    var height := if needed <= frameHeight then needed else frameHeight;
    Rect(Inset(frameWidth), (frameHeight - height) / 2, width, height)
  }

  /** For a shown text under 65536 bytes, whenever the code as written does not overflow it
      computes the corrected area. */
  lemma AsWrittenAgreesWhenItFits(frameWidth: nat, frameHeight: nat, textBytes: nat, errorBytes: nat)
    requires Drawable(frameWidth, frameHeight) && textBytes + errorBytes < U16Limit
    ensures RoundAreaAsWritten(frameWidth, frameHeight, textBytes, errorBytes).Some? ==>
            RoundAreaAsWritten(frameWidth, frameHeight, textBytes, errorBytes) ==
            Some(RoundArea(frameWidth, frameHeight, textBytes, errorBytes))
  {
    if frameWidth * 20 < U16Limit {
      var width := ColumnWidth(frameWidth);
      CastKeepsRows(frameHeight, Inset(frameWidth), width, textBytes + errorBytes);
    }
  }

  /** For a shown text under 65536 bytes the `as u16` cast keeps the row count, so only the
      steps after it can overflow. */
  lemma CastKeepsRows(frameHeight: nat, x: nat, width: nat, n: nat)
    requires 0 < width && n < U16Limit
    ensures RowsAsWritten(frameHeight, x, width, (n / width) % U16Limit) ==
            RowsAsWritten(frameHeight, x, width, n / width)
  {
    QuotientAtMostDividend(n, width);
    BelowModulus(n / width);
  }

  /** An 80 x 24 terminal, a 40-byte prompt and 1200 mistyped characters: the text needs 26
      rows, and the subtraction `24 - 26` overflows, while the corrected area fills the frame. */
  lemma LongErrorOverflowsAsWritten()
    ensures RoundAreaAsWritten(80, 24, 40, 1200) == None
    ensures RoundArea(80, 24, 40, 1200) == Rect(16, 0, 48, 24)
  {
  }

  /** An 80 x 24 terminal and 48 * 65536 bytes of shown text: the row count 65536 is cut to 0
      by the `as u16` cast, so as written the area is one row tall with no overflow at all,
      while the corrected area fills the frame. */
  lemma HugeTextTruncatedAsWritten()
    ensures RoundAreaAsWritten(80, 24, 48 * 65536, 0) == Some(Rect(16, 11, 48, 1))
    ensures RoundArea(80, 24, 48 * 65536, 0) == Rect(16, 0, 48, 24)
  {
  }


  lemma BelowModulus(q: nat)
    requires q < U16Limit
    ensures q % U16Limit == q
  {
  }

  lemma QuotientAtMostDividend(a: nat, d: nat)
    requires d > 0
    ensures a / d <= a
  {
    var q, e := a / d, d - 1;
    assert a == d * q + a % d;
    assert d * q == e * q + q;
  }
}
