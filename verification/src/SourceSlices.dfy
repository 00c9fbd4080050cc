/** Side tables, slices and UTF-16 units of carrier text. */
module SourceSlices {
  import opened Basics
  import opened SourceTexts
  import Characters

  /** The byte offset of a piece, in the raw bytes and in the carrier alike. */
  function Offset(pieces: seq<Piece>, k: nat): nat
    requires AllProper(pieces) && k <= |pieces|
  {
    |Raw(pieces[..k])|
  }

  lemma OffsetNext(pieces: seq<Piece>, k: nat)
    requires AllProper(pieces) && k < |pieces|
    ensures Offset(pieces, k + 1) == Offset(pieces, k) + |RawBytes(pieces[k])| > Offset(pieces, k)
  {
    hide Raw;
    assert pieces[..k + 1] == pieces[..k] + [pieces[k]];
    RawJoins(pieces[..k], [pieces[k]]);
    OnePiece(pieces[k], 0);
  }

  lemma {:induction false} OffsetGrows(pieces: seq<Piece>, j: nat, k: nat)
    requires AllProper(pieces) && j < k <= |pieces|
    ensures Offset(pieces, j) + |RawBytes(pieces[j])| <= Offset(pieces, k)
    ensures Offset(pieces, j) < Offset(pieces, k)
    decreases k
  {
    hide Offset;
    hide RawBytes;
    OffsetNext(pieces, k - 1);
    if j < k - 1 {
      OffsetGrows(pieces, j, k - 1);
    }
  }

  /** The bytes of a stretch of pieces. */
  lemma RawStretch(pieces: seq<Piece>, i: nat, j: nat)
    requires AllProper(pieces) && i <= j <= |pieces|
    ensures Offset(pieces, i) <= Offset(pieces, j) <= |Raw(pieces)|
    ensures Raw(pieces)[Offset(pieces, i)..Offset(pieces, j)] == Raw(pieces[i..j])
  {
    hide Raw;
    assert pieces == pieces[..j] + pieces[j..] && pieces[..j] == pieces[..i] + pieces[i..j];
    RawJoins(pieces[..j], pieces[j..]);
    RawJoins(pieces[..i], pieces[i..j]);
  }

  // ---- Side tables ----

  /** Every marker belongs to a surrogate piece. */
  lemma {:induction false} MarkerPiece(pieces: seq<Piece>, base: nat, m: nat) returns (k: nat)
    requires AllProper(pieces) && m < |Markers(pieces, base)|
    ensures k < |pieces| && pieces[k].Surrogate? && Markers(pieces, base)[m] == Marker(base + Offset(pieces, k), pieces[k].unit)
    ensures |Markers(pieces[..k], base)| == m
    decreases |pieces|
  {
    hide RawBytes;
    var width := |RawBytes(pieces[0])|;
    var here := if pieces[0].Surrogate? then 1 else 0;
    if m < here {
      k := 0;
      assert pieces[..0] == [];
    } else {
      var j := MarkerPiece(pieces[1..], base + width, m - here);
      k := j + 1;
      assert pieces[..k] == [pieces[0]] + pieces[1..][..j];
      assert pieces[..k][1..] == pieces[1..][..j];
    }
  }

  lemma {:induction false} InvalidPiece(pieces: seq<Piece>, base: nat, m: nat) returns (k: nat)
    requires AllProper(pieces) && m < |InvalidOffsets(pieces, base)|
    ensures k < |pieces| && InvalidOffsets(pieces, base)[m] == base + Offset(pieces, k) && pieces[k].Malformed?
    ensures |InvalidOffsets(pieces[..k], base)| == m
    decreases |pieces|
  {
    hide RawBytes;
    var width := |RawBytes(pieces[0])|;
    var here := if pieces[0].Malformed? then 1 else 0;
    if m < here {
      k := 0;
      assert pieces[..0] == [];
    } else {
      var j := InvalidPiece(pieces[1..], base + width, m - here);
      k := j + 1;
      assert pieces[..k] == [pieces[0]] + pieces[1..][..j];
      assert pieces[..k][1..] == pieces[1..][..j];
    }
  }

  /** A marker stands exactly where a surrogate was: genuine private-use characters carry none. */
  lemma MarkedIffSurrogate(pieces: seq<Piece>, k: nat, unit: nat)
    requires AllProper(pieces) && k < |pieces|
    ensures Marker(Offset(pieces, k), unit) in Markers(pieces, 0) <==> pieces[k] == Surrogate(unit)
  {
    hide Raw;
    hide Markers;
    hide Offset;
    var markers := Markers(pieces, 0);
    if Marker(Offset(pieces, k), unit) in markers {
      var m :| 0 <= m < |markers| && markers[m] == Marker(Offset(pieces, k), unit);
      var j := MarkerPiece(pieces, 0, m);
      if j < k {
        OffsetGrows(pieces, j, k);
      } else if k < j {
        OffsetGrows(pieces, k, j);
      }
    }
    if pieces[k] == Surrogate(unit) {
      MarkerOfPiece(pieces, k);
    }
  }

  lemma MarkerOfPiece(pieces: seq<Piece>, k: nat)
    requires AllProper(pieces) && k < |pieces| && pieces[k].Surrogate?
    ensures Marker(Offset(pieces, k), pieces[k].unit) in Markers(pieces, 0)
  {
    hide Raw;
    hide Markers;
    assert pieces == pieces[..k] + ([pieces[k]] + pieces[k + 1..]);
    MarkersJoin(pieces[..k], [pieces[k]] + pieces[k + 1..], 0);
    MarkersJoin([pieces[k]], pieces[k + 1..], Offset(pieces, k));
    OnePiece(pieces[k], Offset(pieces, k));
  }

  /** `offset` is the start of the carrier's character `k`. */
  ghost predicate StartsAt(carrier: seq<nat>, k: nat, offset: nat) {
    Scalars(carrier) && k < |carrier| && |CarrierBytes(carrier[..k])| == offset
  }

  ghost predicate MarkerHolds(text: SourceText, marker: Marker)
    requires Scalars(text.carrier)
  {
    && IsSurrogate(marker.unit)
    && (exists k: nat :: StartsAt(text.carrier, k, marker.offset) && text.carrier[k] == CARRIER_START + (marker.unit - 0xd800))
    && marker.offset <= |RawBytesOf(text)| && Decode(RawBytesOf(text)[marker.offset..]) == Some((marker.unit, 3))
  }

  /** A malformed byte is carried on its own, never inside the substitute of a surrogate. */
  ghost predicate InvalidHolds(text: SourceText, offset: nat) {
    && (exists k: nat :: StartsAt(text.carrier, k, offset) && text.carrier[k] == INVALID_CARRIER)
    && text.raw.Some? && offset < |text.raw.value| && text.raw.value[offset] >= 0x80
    && forall m :: 0 <= m < |text.surrogates| ==>
         offset < text.surrogates[m].offset || offset >= text.surrogates[m].offset + 3
  }

  /** What the source checks of every text it builds. */
  ghost predicate InvariantsHold(text: SourceText) {
    && Scalars(text.carrier)
    && |RawBytesOf(text)| == |CarrierBytes(text.carrier)|
    && (text.surrogates != [] || text.invalid != [] ==> text.raw.Some?)
    && (text.raw.Some? ==> text.raw.value != CarrierBytes(text.carrier))
    && (forall m, n :: 0 <= m < n < |text.surrogates| ==> text.surrogates[m].offset < text.surrogates[n].offset)
    && (forall m, n :: 0 <= m < n < |text.invalid| ==> text.invalid[m] < text.invalid[n])
    && (forall m :: 0 <= m < |text.surrogates| ==> MarkerHolds(text, text.surrogates[m]))
    && (forall m :: 0 <= m < |text.invalid| ==> InvalidHolds(text, text.invalid[m]))
  }

  lemma PieceStarts(pieces: seq<Piece>, k: nat)
    requires AllProper(pieces) && k < |pieces|
    ensures StartsAt(Chars(pieces), k, Offset(pieces, k))
  {
    hide Raw;
    hide CarrierBytes;
    assert Chars(pieces)[..k] == Chars(pieces[..k]);
    CarrierWidth(pieces[..k]);
  }

  lemma RawFrom(pieces: seq<Piece>, k: nat)
    requires AllProper(pieces) && k < |pieces|
    ensures Offset(pieces, k) < |Raw(pieces)|
    ensures Raw(pieces)[Offset(pieces, k)..] == RawBytes(pieces[k]) + Raw(pieces[k + 1..])
  {
    hide Raw;
    hide RawBytes;
    hide Offset;
    RawStretch(pieces, k, |pieces|);
    assert pieces[k..|pieces|] == [pieces[k]] + pieces[k + 1..];
    RawFirst(pieces[k], pieces[k + 1..]);
    OffsetNext(pieces, k);
    RawStretch(pieces, k + 1, |pieces|);
    WholeOffset(pieces);
  }

  lemma WholeOffset(pieces: seq<Piece>)
    requires AllProper(pieces)
    ensures Offset(pieces, |pieces|) == |Raw(pieces)|
  {
    assert pieces[..|pieces|] == pieces;
  }

  lemma MarkersHold(pieces: seq<Piece>, m: nat)
    requires AllProper(pieces) && m < |TextOf(pieces).surrogates|
    ensures MarkerHolds(TextOf(pieces), TextOf(pieces).surrogates[m])
  {
    hide Raw;
    hide Markers;
    hide InvalidOffsets;
    hide CarrierBytes;
    hide Decode;
    var text := TextOf(pieces);
    var k := MarkerPiece(pieces, 0, m);
    PieceStarts(pieces, k);
    RawFrom(pieces, k);
    EncodeDecodes(pieces[k].unit, Raw(pieces[k + 1..]));
    assert text.raw == Some(Raw(pieces));
  }

  lemma MarkersAscend(pieces: seq<Piece>, m: nat, n: nat)
    requires AllProper(pieces) && m < n < |Markers(pieces, 0)|
    ensures Markers(pieces, 0)[m].offset < Markers(pieces, 0)[n].offset
  {
    hide Raw;
    hide Markers;
    hide Offset;
    var j := MarkerPiece(pieces, 0, m);
    var k := MarkerPiece(pieces, 0, n);
    if k <= j {
      assert pieces[..j] == pieces[..k] + pieces[k..j];
      MarkersJoin(pieces[..k], pieces[k..j], 0);
    }
    OffsetGrows(pieces, j, k);
  }

  lemma InvalidAscend(pieces: seq<Piece>, m: nat, n: nat)
    requires AllProper(pieces) && m < n < |InvalidOffsets(pieces, 0)|
    ensures InvalidOffsets(pieces, 0)[m] < InvalidOffsets(pieces, 0)[n]
  {
    hide Raw;
    hide InvalidOffsets;
    hide Offset;
    var j := InvalidPiece(pieces, 0, m);
    var k := InvalidPiece(pieces, 0, n);
    if k <= j {
      assert pieces[..j] == pieces[..k] + pieces[k..j];
      InvalidJoins(pieces[..k], pieces[k..j], 0);
    }
    OffsetGrows(pieces, j, k);
  }

  lemma InvalidsHold(pieces: seq<Piece>, n: nat)
    requires AllProper(pieces) && n < |TextOf(pieces).invalid|
    ensures InvalidHolds(TextOf(pieces), TextOf(pieces).invalid[n])
  {
    hide Raw;
    hide Markers;
    hide InvalidOffsets;
    hide CarrierBytes;
    hide Offset;
    var text := TextOf(pieces);
    var k := InvalidPiece(pieces, 0, n);
    PieceStarts(pieces, k);
    RawFrom(pieces, k);
    assert text.raw == Some(Raw(pieces));
    assert Raw(pieces)[Offset(pieces, k)] == Raw(pieces)[Offset(pieces, k)..][0];
    forall m | 0 <= m < |text.surrogates|
      ensures text.invalid[n] < text.surrogates[m].offset || text.invalid[n] >= text.surrogates[m].offset + 3
    {
      var j := MarkerPiece(pieces, 0, m);
      if j < k {
        OffsetGrows(pieces, j, k);
      } else {
        OffsetGrows(pieces, k, j);
      }
    }
  }

  lemma TextHolds(source: seq<Byte>)
    ensures InvariantsHold(TextOf(Pieces(source)))
  {
    hide Raw;
    hide Markers;
    hide InvalidOffsets;
    hide CarrierBytes;
    hide Pieces;
    hide MarkerHolds;
    hide InvalidHolds;
    var pieces := Pieces(source);
    var text := TextOf(pieces);
    Reversible(source);
    forall m, n | 0 <= m < n < |text.surrogates|
      ensures text.surrogates[m].offset < text.surrogates[n].offset
    {
      MarkersAscend(pieces, m, n);
    }
    forall m, n | 0 <= m < n < |text.invalid|
      ensures text.invalid[m] < text.invalid[n]
    {
      InvalidAscend(pieces, m, n);
    }
    forall m | 0 <= m < |text.surrogates|
      ensures MarkerHolds(text, text.surrogates[m])
    {
      MarkersHold(pieces, m);
    }
    forall m | 0 <= m < |text.invalid|
      ensures InvalidHolds(text, text.invalid[m])
    {
      InvalidsHold(pieces, m);
    }
  }

  // ---- Slices ----

  /** The character that starts at a byte offset, or the end. */
  function CharacterAt(carrier: seq<nat>, offset: nat): Option<nat>
    requires Scalars(carrier)
    decreases |carrier|
  {
    if offset == 0 then Some(0)
    else if carrier == [] || |Encode(carrier[0])| > offset then None
    else
      var rest := CharacterAt(carrier[1..], offset - |Encode(carrier[0])|);
      if rest.Some? then Some(rest.value + 1) else None
  }

  lemma {:induction false} CharacterAtStart(carrier: seq<nat>, k: nat)
    requires Scalars(carrier) && k <= |carrier|
    ensures CharacterAt(carrier, |CarrierBytes(carrier[..k])|) == Some(k)
    decreases k
  {
    if k > 0 {
      CharacterAtStart(carrier[1..], k - 1);
      assert carrier[..k][1..] == carrier[1..][..k - 1];
    }
  }

  lemma {:induction false} CharacterAtIsStart(carrier: seq<nat>, offset: nat)
    requires Scalars(carrier)
    ensures var k := CharacterAt(carrier, offset);
            k.Some? ==> k.value <= |carrier| && |CarrierBytes(carrier[..k.value])| == offset
    decreases |carrier|
  {
    var k := CharacterAt(carrier, offset);
    if k.Some? && offset > 0 {
      CharacterAtIsStart(carrier[1..], offset - |Encode(carrier[0])|);
      assert carrier[..k.value][1..] == carrier[1..][..k.value - 1];
    }
  }

  /** How many leading markers lie before an offset. */
  function MarkersBelow(markers: seq<Marker>, offset: nat): (n: nat)
    ensures n <= |markers|
  {
    if markers == [] || markers[0].offset >= offset then 0 else 1 + MarkersBelow(markers[1..], offset)
  }

  function OffsetsBelow(offsets: seq<nat>, offset: nat): (n: nat)
    ensures n <= |offsets|
  {
    if offsets == [] || offsets[0] >= offset then 0 else 1 + OffsetsBelow(offsets[1..], offset)
  }

  datatype TextSlice = TextSlice(raw: seq<Byte>, carrier: seq<nat>, base: nat, surrogates: seq<Marker>, invalid: seq<nat>)

  /** A byte range of a text, when it is aligned to characters. */
  function Slice(text: SourceText, start: nat, end: nat): Option<TextSlice>
    requires Scalars(text.carrier)
  {
    var i, j := CharacterAt(text.carrier, start), CharacterAt(text.carrier, end);
    if i.None? || j.None? || i.value > j.value || j.value > |text.carrier| || start > end || end > |RawBytesOf(text)| then None
    else
      var (s0, s1) := (MarkersBelow(text.surrogates, start), MarkersBelow(text.surrogates, end));
      var (x0, x1) := (OffsetsBelow(text.invalid, start), OffsetsBelow(text.invalid, end));
      if s0 > s1 || x0 > x1 then None
      else Some(TextSlice(RawBytesOf(text)[start..end], text.carrier[i.value..j.value], start,
                          text.surrogates[s0..s1], text.invalid[x0..x1]))
  }

  function SliceOf(pieces: seq<Piece>, base: nat): TextSlice
    requires AllProper(pieces)
  {
    TextSlice(Raw(pieces), Chars(pieces), base, Markers(pieces, base), InvalidOffsets(pieces, base))
  }

  lemma {:induction false} MarkersBefore(pieces: seq<Piece>, k: nat, base: nat)
    requires AllProper(pieces) && k <= |pieces|
    ensures MarkersBelow(Markers(pieces, base), base + Offset(pieces, k)) == |Markers(pieces[..k], base)|
    decreases k
  {
    hide RawBytes;
    if k == 0 {
      assert pieces[..0] == [];
      NoneBelow(pieces, base);
    } else {
      var width := |RawBytes(pieces[0])|;
      MarkersBefore(pieces[1..], k - 1, base + width);
      assert pieces[..k][1..] == pieces[1..][..k - 1];
      assert Offset(pieces, k) == width + Offset(pieces[1..], k - 1);
      var rest := Markers(pieces[1..], base + width);
      assert Markers(pieces, base) == if pieces[0].Surrogate? then [Marker(base, pieces[0].unit)] + rest else rest;
      OffsetGrows(pieces, 0, k);
      assert pieces[..0] == [];
    }
  }

  lemma NoneBelow(pieces: seq<Piece>, base: nat)
    requires AllProper(pieces)
    ensures MarkersBelow(Markers(pieces, base), base) == 0 && OffsetsBelow(InvalidOffsets(pieces, base), base) == 0
  {
    hide Raw;
    hide Markers;
    hide InvalidOffsets;
    if Markers(pieces, base) != [] {
      var k := MarkerPiece(pieces, base, 0);
    }
    if InvalidOffsets(pieces, base) != [] {
      var k := InvalidPiece(pieces, base, 0);
    }
  }

  lemma {:induction false} InvalidBefore(pieces: seq<Piece>, k: nat, base: nat)
    requires AllProper(pieces) && k <= |pieces|
    ensures OffsetsBelow(InvalidOffsets(pieces, base), base + Offset(pieces, k)) == |InvalidOffsets(pieces[..k], base)|
    decreases k
  {
    hide RawBytes;
    if k == 0 {
      assert pieces[..0] == [];
      NoneBelow(pieces, base);
    } else {
      var width := |RawBytes(pieces[0])|;
      InvalidBefore(pieces[1..], k - 1, base + width);
      assert pieces[..k][1..] == pieces[1..][..k - 1];
      assert Offset(pieces, k) == width + Offset(pieces[1..], k - 1);
      var rest := InvalidOffsets(pieces[1..], base + width);
      assert InvalidOffsets(pieces, base) == if pieces[0].Malformed? then [base] + rest else rest;
      OffsetGrows(pieces, 0, k);
      assert pieces[..0] == [];
    }
  }

  lemma StretchTables(pieces: seq<Piece>, i: nat, j: nat)
    requires AllProper(pieces) && i <= j <= |pieces|
    ensures |Markers(pieces[..i], 0)| <= |Markers(pieces[..j], 0)| <= |Markers(pieces, 0)|
    ensures Markers(pieces, 0)[|Markers(pieces[..i], 0)|..|Markers(pieces[..j], 0)|] == Markers(pieces[i..j], Offset(pieces, i))
    ensures |InvalidOffsets(pieces[..i], 0)| <= |InvalidOffsets(pieces[..j], 0)| <= |InvalidOffsets(pieces, 0)|
    ensures InvalidOffsets(pieces, 0)[|InvalidOffsets(pieces[..i], 0)|..|InvalidOffsets(pieces[..j], 0)|]
         == InvalidOffsets(pieces[i..j], Offset(pieces, i))
  {
    hide Raw;
    hide Markers;
    hide InvalidOffsets;
    assert pieces == pieces[..j] + pieces[j..] && pieces[..j] == pieces[..i] + pieces[i..j];
    MarkersJoin(pieces[..j], pieces[j..], 0);
    MarkersJoin(pieces[..i], pieces[i..j], 0);
    InvalidJoins(pieces[..j], pieces[j..], 0);
    InvalidJoins(pieces[..i], pieces[i..j], 0);
  }

  lemma WholeRaw(pieces: seq<Piece>)
    requires AllProper(pieces)
    ensures RawBytesOf(TextOf(pieces)) == Raw(pieces)
  {
    hide Raw;
    hide CarrierBytes;
    CarrierWidth(pieces);
    PlainHasNoMarkers(pieces, 0);
  }

  /** A slice between two piece boundaries is the text of the pieces between them. */
  lemma SliceIsStretch(pieces: seq<Piece>, i: nat, j: nat)
    requires AllProper(pieces) && i <= j <= |pieces|
    ensures Slice(TextOf(pieces), Offset(pieces, i), Offset(pieces, j))
         == Some(SliceOf(pieces[i..j], Offset(pieces, i)))
  {
    hide Raw;
    hide Markers;
    hide InvalidOffsets;
    hide CarrierBytes;
    hide CharacterAt;
    WholeRaw(pieces);
    CharacterOfPiece(pieces, i);
    CharacterOfPiece(pieces, j);
    MarkersBefore(pieces, i, 0);
    MarkersBefore(pieces, j, 0);
    InvalidBefore(pieces, i, 0);
    InvalidBefore(pieces, j, 0);
    StretchTables(pieces, i, j);
    RawStretch(pieces, i, j);
    assert Chars(pieces)[i..j] == Chars(pieces[i..j]);
  }

  lemma CharacterOfPiece(pieces: seq<Piece>, k: nat)
    requires AllProper(pieces) && k <= |pieces|
    ensures CharacterAt(Chars(pieces), Offset(pieces, k)) == Some(k)
  {
    hide Raw;
    hide CarrierBytes;
    CharacterAtStart(Chars(pieces), k);
    assert Chars(pieces)[..k] == Chars(pieces[..k]);
    CarrierWidth(pieces[..k]);
  }

  // ---- UTF-16 units ----

  /** The units of well-formed pieces: what the source means. */
  function Units(pieces: seq<Piece>): seq<nat>
    requires AllProper(pieces)
  {
    if pieces == [] then [] else PieceUnits(pieces[0]) + Units(pieces[1..])
  }

  function PieceUnits(piece: Piece): seq<nat>
    requires Proper(piece)
  {
    match piece
    case Plain(code) => Characters.Utf16(code)
    case Surrogate(unit) => [unit]
    case Malformed(_) => []
  }

  /** The units of carrier characters from an absolute offset, replacing each marked one. */
  function UnitsFrom(carrier: seq<nat>, offset: nat, markers: seq<Marker>): seq<nat>
    requires Scalars(carrier)
    decreases |carrier|
  {
    if carrier == [] then []
    else if markers != [] && markers[0].offset == offset then
      [markers[0].unit] + UnitsFrom(carrier[1..], offset + |Encode(carrier[0])|, markers[1..])
    else Characters.Utf16(carrier[0]) + UnitsFrom(carrier[1..], offset + |Encode(carrier[0])|, markers)
  }

  /** The units of a slice; none are defined when it holds malformed bytes. */
  function SliceUnits(slice: TextSlice): Option<seq<nat>>
    requires Scalars(slice.carrier)
  {
    if slice.invalid != [] then None else Some(UnitsFrom(slice.carrier, slice.base, slice.surrogates))
  }

  lemma UnitsFromFirst(c: nat, carrier: seq<nat>, offset: nat, markers: seq<Marker>)
    requires Scalars([c] + carrier) && Scalars(carrier)
    ensures ([c] + carrier)[0] == c
    ensures UnitsFrom([c] + carrier, offset, markers) ==
            if markers != [] && markers[0].offset == offset
            then [markers[0].unit] + UnitsFrom(carrier, offset + |Encode(c)|, markers[1..])
            else Characters.Utf16(c) + UnitsFrom(carrier, offset + |Encode(c)|, markers)
  {
    hide Characters.Utf16;
    hide Encode;
    assert ([c] + carrier)[1..] == carrier;
  }

  lemma TablesFirst(piece: Piece, rest: seq<Piece>, base: nat)
    requires Proper(piece) && AllProper(rest) && AllProper([piece] + rest)
    ensures Markers([piece] + rest, base)
         == (if piece.Surrogate? then [Marker(base, piece.unit)] else []) + Markers(rest, base + |RawBytes(piece)|)
    ensures InvalidOffsets([piece] + rest, base)
         == (if piece.Malformed? then [base] else []) + InvalidOffsets(rest, base + |RawBytes(piece)|)
  {
    hide RawBytes;
    assert ([piece] + rest)[1..] == rest;
  }

  lemma UnitsFirst(piece: Piece, rest: seq<Piece>)
    requires Proper(piece) && AllProper(rest) && AllProper([piece] + rest)
    ensures Units([piece] + rest) == PieceUnits(piece) + Units(rest)
  {
    hide PieceUnits;
    hide Proper;
    assert ([piece] + rest)[1..] == rest;
  }

  lemma CharsFirst(piece: Piece, rest: seq<Piece>)
    requires Proper(piece) && AllProper(rest) && AllProper([piece] + rest)
    ensures Chars([piece] + rest) == [Carrier(piece)] + Chars(rest)
  {
    hide Carrier;
    hide Proper;
  }

  lemma {:induction false} UnitsOfPieces(pieces: seq<Piece>, base: nat)
    requires AllProper(pieces) && InvalidOffsets(pieces, base) == []
    ensures UnitsFrom(Chars(pieces), base, Markers(pieces, base)) == Units(pieces)
    decreases |pieces|
  {
    hide Raw;
    hide RawBytes;
    hide Encode;
    hide Chars;
    hide Carrier;
    if pieces != [] {
      var piece, rest := pieces[0], pieces[1..];
      var next := base + |RawBytes(piece)|;
      assert pieces == [piece] + rest;
      EqualWidth(piece);
      TablesFirst(piece, rest, base);
      UnitsFirst(piece, rest);
      CharsFirst(piece, rest);
      UnitsOfPieces(rest, next);
      LaterMarkers(rest, base, next);
      UnitsFromFirst(Carrier(piece), Chars(rest), base, Markers(pieces, base));
      CarrierOfPlain(piece);
      var markers := Markers(rest, next);
      assert [] + markers == markers;
      assert piece.Surrogate? ==> Markers(pieces, base)[1..] == markers;
    }
  }

  lemma CarrierOfPlain(piece: Piece)
    requires Proper(piece)
    ensures piece.Plain? ==> Carrier(piece) == piece.code
    ensures |RawBytes(piece)| > 0
  {
  }

  lemma LaterMarkers(pieces: seq<Piece>, offset: nat, base: nat)
    requires AllProper(pieces) && offset < base
    ensures Markers(pieces, base) != [] ==> Markers(pieces, base)[0].offset != offset
  {
    hide Raw;
    hide Markers;
    if Markers(pieces, base) != [] {
      var k := MarkerPiece(pieces, base, 0);
    }
  }

  lemma {:induction false} UnitsJoin(a: seq<Piece>, b: seq<Piece>)
    requires AllProper(a) && AllProper(b)
    ensures Units(a + b) == Units(a) + Units(b)
    decreases |a|
  {
    hide PieceUnits;
    hide Proper;
    if a == [] {
      assert a + b == b;
    } else {
      var piece, rest := a[0], a[1..];
      assert a == [piece] + rest && a + b == [piece] + (rest + b);
      UnitsFirst(piece, rest);
      UnitsFirst(piece, rest + b);
      UnitsJoin(rest, b);
    }
  }

  /** The units of the stretch between two offsets of a text. */
  function RangeUnits(text: SourceText, start: nat, end: nat): Option<seq<nat>>
    requires Scalars(text.carrier)
  {
    var slice := Slice(text, start, end);
    if slice.None? || !Scalars(slice.value.carrier) then None else SliceUnits(slice.value)
  }

  lemma RangeIsStretch(pieces: seq<Piece>, i: nat, j: nat)
    requires AllProper(pieces) && i <= j <= |pieces| && InvalidOffsets(pieces[i..j], Offset(pieces, i)) == []
    ensures RangeUnits(TextOf(pieces), Offset(pieces, i), Offset(pieces, j)) == Some(Units(pieces[i..j]))
  {
    hide Raw;
    hide Markers;
    hide InvalidOffsets;
    hide Slice;
    hide UnitsFrom;
    hide Offset;
    SliceIsStretch(pieces, i, j);
    UnitsOfPieces(pieces[i..j], Offset(pieces, i));
  }

  /** A stretch without malformed bytes splits into two without any. */
  lemma StretchSplits(pieces: seq<Piece>, i: nat, j: nat, k: nat)
    requires AllProper(pieces) && i <= j <= k <= |pieces| && InvalidOffsets(pieces[i..k], Offset(pieces, i)) == []
    ensures InvalidOffsets(pieces[i..j], Offset(pieces, i)) == [] && InvalidOffsets(pieces[j..k], Offset(pieces, j)) == []
  {
    hide InvalidOffsets;
    hide Raw;
    assert pieces[i..k] == pieces[i..j] + pieces[j..k] && pieces[..j] == pieces[..i] + pieces[i..j];
    InvalidJoins(pieces[i..j], pieces[j..k], Offset(pieces, i));
    RawJoins(pieces[..i], pieces[i..j]);
  }

  /** Offsets at which a slice exists are the offsets of pieces. */
  lemma SliceBoundary(pieces: seq<Piece>, offset: nat) returns (k: nat)
    requires AllProper(pieces) && CharacterAt(Chars(pieces), offset).Some?
    ensures k <= |pieces| && Offset(pieces, k) == offset
  {
    hide Raw;
    hide CarrierBytes;
    CharacterAtIsStart(Chars(pieces), offset);
    k := CharacterAt(Chars(pieces), offset).value;
    assert Chars(pieces)[..k] == Chars(pieces[..k]);
    CarrierWidth(pieces[..k]);
  }

  /** The units of adjacent slices concatenate to those of the whole range, when that holds no malformed byte. */
  lemma SlicesConcatenate(source: seq<Byte>, start: nat, middle: nat, end: nat)
    requires var text := TextOf(Pieces(source));
             && start <= middle <= end && CharacterAt(text.carrier, middle).Some?
             && Slice(text, start, end).Some? && Slice(text, start, end).value.invalid == []
    ensures var text := TextOf(Pieces(source));
            var left, right, whole := RangeUnits(text, start, middle), RangeUnits(text, middle, end), RangeUnits(text, start, end);
            left.Some? && right.Some? && whole == Some(left.value + right.value)
  {
    hide Pieces;
    hide Raw;
    hide Markers;
    hide InvalidOffsets;
    hide RangeUnits;
    hide CharacterAt;
    hide Units;
    hide Offset;
    hide MarkersBelow;
    hide OffsetsBelow;
    hide RawBytesOf;
    var pieces := Pieces(source);
    var i := SliceBoundary(pieces, start);
    var j := SliceBoundary(pieces, middle);
    var k := SliceBoundary(pieces, end);
    if j < i {
      OffsetGrows(pieces, j, i);
    }
    if k < j {
      OffsetGrows(pieces, k, j);
    }
    SliceIsStretch(pieces, i, k);
    StretchSplits(pieces, i, j, k);
    RangeIsStretch(pieces, i, j);
    RangeIsStretch(pieces, j, k);
    RangeIsStretch(pieces, i, k);
    UnitsJoin(pieces[i..j], pieces[j..k]);
    assert pieces[i..j] + pieces[j..k] == pieces[i..k];
  }

  lemma CleanSlice(pieces: seq<Piece>, start: nat, end: nat)
    requires AllProper(pieces) && InvalidOffsets(pieces, 0) == [] && start <= end
    requires CharacterAt(Chars(pieces), start).Some? && CharacterAt(Chars(pieces), end).Some?
    ensures Slice(TextOf(pieces), start, end).Some? && Slice(TextOf(pieces), start, end).value.invalid == []
  {
    hide Raw;
    hide Markers;
    hide InvalidOffsets;
    hide CharacterAt;
    hide Slice;
    hide Offset;
    var i := SliceBoundary(pieces, start);
    var j := SliceBoundary(pieces, end);
    if j < i {
      OffsetGrows(pieces, j, i);
    }
    SliceIsStretch(pieces, i, j);
    StretchTables(pieces, i, j);
  }

  /** Any aligned three-way split of a text gives back the units of the whole text. */
  lemma ThreeWaySplit(source: seq<Byte>, first: nat, second: nat)
    requires var text := TextOf(Pieces(source));
             && text.invalid == [] && first <= second <= |source|
             && CharacterAt(text.carrier, first).Some? && CharacterAt(text.carrier, second).Some?
    ensures var text := TextOf(Pieces(source));
            var (a, b, c) := (RangeUnits(text, 0, first), RangeUnits(text, first, second), RangeUnits(text, second, |source|));
            && a.Some? && b.Some? && c.Some?
            && a.value + b.value + c.value == UnitsFrom(text.carrier, 0, text.surrogates)
  {
    hide Pieces;
    hide Raw;
    hide Markers;
    hide InvalidOffsets;
    hide RangeUnits;
    hide Units;
    hide UnitsFrom;
    hide Slice;
    hide Offset;
    var pieces := Pieces(source);
    PiecesAreSource(source);
    WholeText(pieces);
    CleanSlice(pieces, 0, second);
    CleanSlice(pieces, 0, |source|);
    SlicesConcatenate(source, 0, first, second);
    SlicesConcatenate(source, 0, second, |source|);
  }

  lemma WholeText(pieces: seq<Piece>)
    requires AllProper(pieces) && InvalidOffsets(pieces, 0) == []
    ensures CharacterAt(Chars(pieces), |Raw(pieces)|).Some?
    ensures RangeUnits(TextOf(pieces), 0, |Raw(pieces)|) == Some(UnitsFrom(Chars(pieces), 0, Markers(pieces, 0)))
  {
    hide Markers;
    hide InvalidOffsets;
    hide RangeUnits;
    hide CharacterAt;
    hide UnitsFrom;
    hide Units;
    assert pieces[..|pieces|] == pieces && pieces[..0] == [] && pieces[0..|pieces|] == pieces;
    CharacterOfPiece(pieces, |pieces|);
    RangeIsStretch(pieces, 0, |pieces|);
    UnitsOfPieces(pieces, 0);
  }

  /** The iterator over the units of carrier text. */
  class Utf16Units {
    var chars: seq<nat>
    var offset: nat
    const surrogates: seq<Marker>
    var markerIndex: nat
    var pending: Option<nat>

    ghost predicate Valid()
      reads this
    {
      Scalars(chars) && markerIndex <= |surrogates|
    }

    /** The units still to come. */
    ghost function Rest(): seq<nat>
      requires Valid()
      reads this
    {
      (if pending.Some? then [pending.value] else []) + UnitsFrom(chars, offset, surrogates[markerIndex..])
    }

    constructor (slice: TextSlice)
      requires Scalars(slice.carrier)
      ensures Valid() && Rest() == UnitsFrom(slice.carrier, slice.base, slice.surrogates)
    {
      chars := slice.carrier;
      offset := slice.base;
      surrogates := slice.surrogates;
      markerIndex := 0;
      pending := None;
      new;
      assert surrogates[0..] == surrogates;
    }

    method Next() returns (r: Option<nat>)
      requires Valid()
      modifies this
      ensures Valid()
      ensures old(Rest()) == [] <==> r == None
      ensures r.Some? ==> old(Rest()) == [r.value] + Rest()
      ensures r.None? ==> Rest() == []
    {
      hide Encode;
      if pending.Some? {
        r := pending;
        pending := None;
        return;
      }
      if chars == [] {
        return None;
      }
      var c, here := chars[0], offset;
      chars := chars[1..];
      offset := offset + |Encode(c)|;
      if markerIndex < |surrogates| && surrogates[markerIndex].offset == here {
        markerIndex := markerIndex + 1;
        assert surrogates[markerIndex - 1..][1..] == surrogates[markerIndex..];
        return Some(surrogates[markerIndex - 1].unit);
      }
      var encoded := Characters.Utf16(c);
      if |encoded| == 2 {
        pending := Some(encoded[1]);
      }
      return Some(encoded[0]);
    }
  }
}
