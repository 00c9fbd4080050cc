/**
 * Source bytes and their equal-width carrier text. Surrogate encodings and malformed
 * bytes are carried by marked substitute characters, so that nothing is lost.
 */
module SourceTexts {
  import opened Basics

  const CARRIER_START := 0xe000
  const INVALID_CARRIER := 0x7f

  predicate IsSurrogate(c: nat) {
    0xd800 <= c <= 0xdfff
  }

  // ---- Encoding ----

  /** UTF-8 bytes of a code point; surrogates are encoded like their neighbours. */
  function Encode(c: nat): (r: seq<Byte>)
    requires c <= MAX_CODE_POINT
    ensures 1 <= |r| <= 4
  {
    if c < 0x80 then [c]
    else if c < 0x800 then [0xc0 + c / 0x40, 0x80 + c % 0x40]
    else if c < 0x1_0000 then [0xe0 + c / 0x1000, 0x80 + c / 0x40 % 0x40, 0x80 + c % 0x40]
    else [0xf0 + c / 0x4_0000, 0x80 + c / 0x1000 % 0x40, 0x80 + c / 0x40 % 0x40, 0x80 + c % 0x40]
  }

  /** Length of an encoding and its smallest code point, by the first byte. */
  function Lead(first: Byte): Option<(nat, nat, nat)> {
    if 0xc0 <= first < 0xe0 then Some((1, first - 0xc0, 0x80))
    else if 0xe0 <= first < 0xf0 then Some((2, first - 0xe0, 0x800))
    else if 0xf0 <= first < 0xf8 then Some((3, first - 0xf0, 0x1_0000))
    else if 0xf8 <= first < 0xfc then Some((4, first - 0xf8, 0x20_0000))
    else if 0xfc <= first < 0xfe then Some((5, first - 0xfc, 0x400_0000))
    else None
  }

  /** The value of `count` continuation bytes after the bits collected so far. */
  function Continue(bits: nat, bytes: seq<Byte>, count: nat): Option<nat>
    requires count <= |bytes|
    decreases count
  {
    if count == 0 then Some(bits)
    else if !IsContinuation(bytes[0]) then None
    else Continue(bits * 0x40 + (bytes[0] - 0x80), bytes[1..], count - 1)
  }

  /** The shortest-form decoder: a code point and the bytes it takes. */
  function Decode(bytes: seq<Byte>): Option<(nat, nat)> {
    if bytes == [] then None
    else if bytes[0] < 0x80 then Some((bytes[0], 1))
    else
      var lead := Lead(bytes[0]);
      if lead.None? || |bytes| <= lead.value.0 then None
      else
        var code := Continue(lead.value.1, bytes[1..], lead.value.0);
        if code.None? || code.value < lead.value.2 then None else Some((code.value, lead.value.0 + 1))
  }

  lemma ContinueTwo(bits: nat, bytes: seq<Byte>)
    requires |bytes| >= 2
    ensures Continue(bits, bytes, 2) ==
            if IsContinuation(bytes[0]) && IsContinuation(bytes[1])
            then Some((bits * 0x40 + (bytes[0] - 0x80)) * 0x40 + (bytes[1] - 0x80)) else None
  {
    assert bytes[1..][0] == bytes[1];
  }

  lemma ContinueThree(bits: nat, bytes: seq<Byte>)
    requires |bytes| >= 3
    ensures Continue(bits, bytes, 3) ==
            if IsContinuation(bytes[0]) && IsContinuation(bytes[1]) && IsContinuation(bytes[2])
            then Some(((bits * 0x40 + (bytes[0] - 0x80)) * 0x40 + (bytes[1] - 0x80)) * 0x40 + (bytes[2] - 0x80)) else None
  {
    if IsContinuation(bytes[0]) {
      ContinueTwo(bits * 0x40 + (bytes[0] - 0x80), bytes[1..]);
    }
  }

  lemma TwoDigits(a: nat, b: nat)
    requires b < 0x40
    ensures var c := a * 0x40 + b; c / 0x40 == a && c % 0x40 == b
  {
  }

  lemma ThreeDigits(a: nat, b: nat, d: nat)
    requires b < 0x40 && d < 0x40
    ensures var c := (a * 0x40 + b) * 0x40 + d; c / 0x1000 == a && c / 0x40 % 0x40 == b && c % 0x40 == d
  {
    TwoDigits(a * 0x40 + b, d);
    TwoDigits(a, b);
  }

  lemma FourDigits(a: nat, b: nat, d: nat, e: nat)
    requires b < 0x40 && d < 0x40 && e < 0x40
    ensures var c := ((a * 0x40 + b) * 0x40 + d) * 0x40 + e;
            c / 0x4_0000 == a && c / 0x1000 % 0x40 == b && c / 0x40 % 0x40 == d && c % 0x40 == e
  {
    var c := ((a * 0x40 + b) * 0x40 + d) * 0x40 + e;
    ThreeDigits(a * 0x40 + b, d, e);
    TwoDigits(a, b);
  }

  lemma DecodeTwo(bytes: seq<Byte>)
    requires bytes != [] && 0xc0 <= bytes[0] < 0xe0
    ensures var r := Decode(bytes); r.Some? ==> r.value.0 < 0x800 && r.value.1 == 2 <= |bytes| && bytes[..2] == Encode(r.value.0)
  {
    var r := Decode(bytes);
    if r.Some? {
      var high: nat, low: nat := bytes[0] - 0xc0, bytes[1] - 0x80;
      assert Continue(high, bytes[1..], 1) == Some(high * 0x40 + low);
      TwoDigits(high, low);
    }
  }

  lemma DecodeThree(bytes: seq<Byte>)
    requires bytes != [] && 0xe0 <= bytes[0] < 0xf0
    ensures var r := Decode(bytes);
            r.Some? ==> r.value.0 < 0x1_0000 && r.value.1 == 3 <= |bytes| && bytes[..3] == Encode(r.value.0)
  {
    hide Continue;
    if |bytes| >= 3 {
      ContinueTwo(bytes[0] - 0xe0, bytes[1..]);
      if IsContinuation(bytes[1]) && IsContinuation(bytes[2]) {
        ThreeDigits(bytes[0] - 0xe0, bytes[1] - 0x80, bytes[2] - 0x80);
      }
    }
  }

  lemma DecodeFour(bytes: seq<Byte>)
    requires bytes != [] && 0xf0 <= bytes[0] < 0xf8
    ensures var r := Decode(bytes);
            r.Some? && r.value.0 <= MAX_CODE_POINT ==> r.value.1 == 4 <= |bytes| && bytes[..4] == Encode(r.value.0)
  {
    hide Continue;
    if |bytes| >= 4 {
      ContinueThree(bytes[0] - 0xf0, bytes[1..]);
      if IsContinuation(bytes[1]) && IsContinuation(bytes[2]) && IsContinuation(bytes[3]) {
        FourDigits(bytes[0] - 0xf0, bytes[1] - 0x80, bytes[2] - 0x80, bytes[3] - 0x80);
      }
    }
  }

  /** What decodes to a code point is its encoding. */
  lemma DecodeIsEncode(bytes: seq<Byte>)
    ensures var r := Decode(bytes);
            r.Some? && r.value.0 <= MAX_CODE_POINT ==>
              r.value.1 == |Encode(r.value.0)| <= |bytes| && bytes[..r.value.1] == Encode(r.value.0)
  {
    hide Continue;
    if bytes != [] {
      if 0xc0 <= bytes[0] < 0xe0 {
        DecodeTwo(bytes);
      } else if 0xe0 <= bytes[0] < 0xf0 {
        DecodeThree(bytes);
      } else if 0xf0 <= bytes[0] < 0xf8 {
        DecodeFour(bytes);
      }
    }
  }

  lemma TwoDecode(c: nat, rest: seq<Byte>)
    requires 0x80 <= c < 0x800
    ensures Decode(Encode(c) + rest) == Some((c, 2))
  {
    var bytes := Encode(c) + rest;
    assert Continue(c / 0x40, bytes[1..], 1) == Some(c);
  }

  lemma ThreeDecode(c: nat, rest: seq<Byte>)
    requires 0x800 <= c < 0x1_0000
    ensures Decode(Encode(c) + rest) == Some((c, 3))
  {
    hide Continue;
    var bytes := Encode(c) + rest;
    ContinueTwo(c / 0x1000, bytes[1..]);
    assert (c / 0x1000 * 0x40 + c / 0x40 % 0x40) * 0x40 + c % 0x40 == c;
  }

  lemma FourDecode(c: nat, rest: seq<Byte>)
    requires 0x1_0000 <= c <= MAX_CODE_POINT
    ensures Decode(Encode(c) + rest) == Some((c, 4))
  {
    hide Continue;
    var bytes := Encode(c) + rest;
    ContinueThree(c / 0x4_0000, bytes[1..]);
    assert ((c / 0x4_0000 * 0x40 + c / 0x1000 % 0x40) * 0x40 + c / 0x40 % 0x40) * 0x40 + c % 0x40 == c;
  }

  /** The encoding of every code point, surrogates included, decodes to it. */
  lemma EncodeDecodes(c: nat, rest: seq<Byte>)
    requires c <= MAX_CODE_POINT
    ensures Decode(Encode(c) + rest) == Some((c, |Encode(c)|))
  {
    hide Continue;
    if 0x80 <= c < 0x800 {
      TwoDecode(c, rest);
    } else if 0x800 <= c < 0x1_0000 {
      ThreeDecode(c, rest);
    } else if 0x1_0000 <= c {
      FourDecode(c, rest);
    }
  }

  // ---- Pieces of source ----

  /** What the bytes at one place of a source are. */
  datatype Piece = Plain(code: nat) | Surrogate(unit: nat) | Malformed(value: Byte)

  predicate Proper(piece: Piece) {
    match piece
    case Plain(code) => code <= MAX_CODE_POINT && !IsSurrogate(code)
    case Surrogate(unit) => IsSurrogate(unit)
    case Malformed(value) => value >= 0x80
  }

  function RawBytes(piece: Piece): seq<Byte>
    requires Proper(piece)
  {
    match piece
    case Plain(code) => Encode(code)
    case Surrogate(unit) => Encode(unit)
    case Malformed(value) => [value]
  }

  /** The character that stands for the piece in the carrier. */
  function Carrier(piece: Piece): (c: nat)
    requires Proper(piece)
    ensures c <= MAX_CODE_POINT && !IsSurrogate(c)
  {
    match piece
    case Plain(code) => code
    case Surrogate(unit) => CARRIER_START + (unit - 0xd800)
    case Malformed(_) => INVALID_CARRIER
  }

  /** A piece and its substitute take the same number of bytes. */
  lemma EqualWidth(piece: Piece)
    requires Proper(piece)
    ensures |Encode(Carrier(piece))| == |RawBytes(piece)|
    ensures piece.Plain? <==> Encode(Carrier(piece)) == RawBytes(piece)
  {
    if piece.Surrogate? {
      assert Encode(piece.unit)[0] == 0xed && Encode(Carrier(piece))[0] == 0xee;
    } else if piece.Malformed? {
      assert Encode(Carrier(piece))[0] == INVALID_CARRIER;
    }
  }

  function FirstPiece(source: seq<Byte>): (r: (Piece, nat))
    requires source != []
    ensures Proper(r.0) && 1 <= r.1 <= |source| && r.1 == |RawBytes(r.0)| && source[..r.1] == RawBytes(r.0)
  {
    DecodeIsEncode(source);
    if source[0] < 0x80 then
      assert source[..1] == [source[0]];
      (Plain(source[0]), 1)
    else
      var decoded := Decode(source);
      if decoded.Some? && decoded.value.0 <= MAX_CODE_POINT then
        if IsSurrogate(decoded.value.0) then (Surrogate(decoded.value.0), decoded.value.1)
        else (Plain(decoded.value.0), decoded.value.1)
      else
        assert source[..1] == [source[0]];
        (Malformed(source[0]), 1)
  }

  /** The first piece is the code point whose encoding the source begins with, or a lone byte if there is none. */
  lemma FirstPieceExact(source: seq<Byte>, c: nat)
    requires source != [] && c <= MAX_CODE_POINT
    ensures Encode(c) <= source <==> FirstPiece(source).0 == if IsSurrogate(c) then Surrogate(c) else Plain(c)
    ensures FirstPiece(source).0.Malformed? ==> FirstPiece(source) == (Malformed(source[0]), 1) && !(Encode(c) <= source)
  {
    hide Continue;
    if Encode(c) <= source {
      assert source == Encode(c) + source[|Encode(c)|..];
      EncodeDecodes(c, source[|Encode(c)|..]);
      assert Encode(c)[0] == source[0];
    }
  }

  predicate AllProper(pieces: seq<Piece>) {
    forall i :: 0 <= i < |pieces| ==> Proper(pieces[i])
  }

  function Pieces(source: seq<Byte>): (r: seq<Piece>)
    ensures AllProper(r)
    decreases |source|
  {
    if source == [] then []
    else
      var (piece, width) := FirstPiece(source);
      [piece] + Pieces(source[width..])
  }

  function Raw(pieces: seq<Piece>): seq<Byte>
    requires AllProper(pieces)
  {
    if pieces == [] then [] else RawBytes(pieces[0]) + Raw(pieces[1..])
  }

  lemma RawFirst(piece: Piece, rest: seq<Piece>)
    requires Proper(piece) && AllProper(rest)
    ensures AllProper([piece] + rest) && Raw([piece] + rest) == RawBytes(piece) + Raw(rest)
  {
    hide RawBytes;
    assert ([piece] + rest)[1..] == rest;
  }

  lemma {:induction false} PiecesAreSource(source: seq<Byte>)
    ensures Raw(Pieces(source)) == source
    decreases |source|
  {
    hide FirstPiece;
    hide RawBytes;
    hide Raw;
    if source != [] {
      var (piece, width) := FirstPiece(source);
      PiecesAreSource(source[width..]);
      RawFirst(piece, Pieces(source[width..]));
      assert source[..width] + source[width..] == source;
    } else {
      assert Raw([]) == [] by { NoRaw(); }
    }
  }

  lemma NoRaw()
    ensures Raw([]) == []
  {
  }

  // ---- The carrier and its side tables ----

  datatype Marker = Marker(offset: nat, unit: nat)

  datatype SourceText = SourceText(raw: Option<seq<Byte>>, carrier: seq<nat>, surrogates: seq<Marker>, invalid: seq<nat>)

  function Chars(pieces: seq<Piece>): (r: seq<nat>)
    requires AllProper(pieces)
    ensures |r| == |pieces| && forall i :: 0 <= i < |pieces| ==> r[i] == Carrier(pieces[i])
  {
    seq(|pieces|, i requires 0 <= i < |pieces| => Carrier(pieces[i]))
  }

  predicate Scalars(carrier: seq<nat>) {
    forall i :: 0 <= i < |carrier| ==> carrier[i] <= MAX_CODE_POINT && !IsSurrogate(carrier[i])
  }

  function CarrierBytes(carrier: seq<nat>): seq<Byte>
    requires Scalars(carrier)
  {
    if carrier == [] then [] else Encode(carrier[0]) + CarrierBytes(carrier[1..])
  }

  function Markers(pieces: seq<Piece>, base: nat): seq<Marker>
    requires AllProper(pieces)
  {
    if pieces == [] then []
    else
      (if pieces[0].Surrogate? then [Marker(base, pieces[0].unit)] else [])
      + Markers(pieces[1..], base + |RawBytes(pieces[0])|)
  }

  function InvalidOffsets(pieces: seq<Piece>, base: nat): seq<nat>
    requires AllProper(pieces)
  {
    if pieces == [] then []
    else
      (if pieces[0].Malformed? then [base] else []) + InvalidOffsets(pieces[1..], base + |RawBytes(pieces[0])|)
  }

  function TextOf(pieces: seq<Piece>): SourceText
    requires AllProper(pieces)
  {
    var surrogates, invalid := Markers(pieces, 0), InvalidOffsets(pieces, 0);
    SourceText(if surrogates == [] && invalid == [] then None else Some(Raw(pieces)), Chars(pieces), surrogates, invalid)
  }

  function RawBytesOf(text: SourceText): seq<Byte>
    requires Scalars(text.carrier)
  {
    if text.raw.Some? then text.raw.value else CarrierBytes(text.carrier)
  }

  lemma {:induction false} CarrierWidth(pieces: seq<Piece>)
    requires AllProper(pieces)
    ensures |CarrierBytes(Chars(pieces))| == |Raw(pieces)|
    ensures (forall i :: 0 <= i < |pieces| ==> pieces[i].Plain?) <==> CarrierBytes(Chars(pieces)) == Raw(pieces)
    decreases |pieces|
  {
    if pieces != [] {
      EqualWidth(pieces[0]);
      CarrierWidth(pieces[1..]);
      assert Chars(pieces)[1..] == Chars(pieces[1..]);
      var a, b := Encode(Carrier(pieces[0])), RawBytes(pieces[0]);
      var c, d := CarrierBytes(Chars(pieces[1..])), Raw(pieces[1..]);
      assert CarrierBytes(Chars(pieces)) == a + c && Raw(pieces) == b + d;
      if a + c == b + d {
        assert a == (a + c)[..|a|] == (b + d)[..|b|] == b;
        assert c == (a + c)[|a|..] == (b + d)[|b|..] == d;
        assert forall i :: 1 <= i < |pieces| ==> pieces[i] == pieces[1..][i - 1];
      }
      if forall i :: 0 <= i < |pieces| ==> pieces[i].Plain? {
        assert forall i :: 0 <= i < |pieces| - 1 ==> pieces[1..][i] == pieces[i + 1];
      }
    }
  }

  lemma {:induction false} PlainHasNoMarkers(pieces: seq<Piece>, base: nat)
    requires AllProper(pieces)
    ensures Markers(pieces, base) == [] && InvalidOffsets(pieces, base) == [] <==>
            forall i :: 0 <= i < |pieces| ==> pieces[i].Plain?
    decreases |pieces|
  {
    hide RawBytes;
    if pieces != [] {
      PlainHasNoMarkers(pieces[1..], base + |RawBytes(pieces[0])|);
      assert forall i :: 1 <= i < |pieces| ==> pieces[i] == pieces[1..][i - 1];
      assert forall i :: 0 <= i < |pieces| - 1 ==> pieces[1..][i] == pieces[i + 1];
    }
  }

  /** The original bytes are always recovered, the carrier is as long, and it is kept apart only when it differs. */
  lemma Reversible(source: seq<Byte>)
    ensures var text := TextOf(Pieces(source));
            && RawBytesOf(text) == source
            && |CarrierBytes(text.carrier)| == |source|
            && (text.raw.Some? <==> CarrierBytes(text.carrier) != source)
  {
    hide Pieces;
    var pieces := Pieces(source);
    PiecesAreSource(source);
    CarrierWidth(pieces);
    PlainHasNoMarkers(pieces, 0);
  }

  // ---- Well-formed source ----

  function AllPlain(codes: seq<nat>): (r: seq<Piece>)
    requires Scalars(codes)
    ensures |r| == |codes| && AllProper(r) && forall i :: 0 <= i < |codes| ==> r[i] == Plain(codes[i])
  {
    seq(|codes|, i requires 0 <= i < |codes| => Plain(codes[i]))
  }

  lemma FirstIsPlain(code: nat, rest: seq<Byte>)
    requires code <= MAX_CODE_POINT && !IsSurrogate(code)
    ensures FirstPiece(Encode(code) + rest) == (Plain(code), |Encode(code)|)
  {
    hide Decode;
    EncodeDecodes(code, rest);
    assert Encode(code)[0] < 0x80 <==> code < 0x80;
  }

  /** Well-formed UTF-8 is taken apart into its scalars, one plain piece each, and is its own carrier. */
  lemma {:induction false} WellFormedIsPlain(codes: seq<nat>)
    requires Scalars(codes)
    ensures Pieces(CarrierBytes(codes)) == AllPlain(codes)
    ensures TextOf(Pieces(CarrierBytes(codes))) == SourceText(None, codes, [], [])
    decreases |codes|
  {
    hide FirstPiece;
    hide Encode;
    if codes == [] {
      assert Pieces([]) == [];
    } else {
      var rest := CarrierBytes(codes[1..]);
      FirstIsPlain(codes[0], rest);
      WellFormedIsPlain(codes[1..]);
      assert (Encode(codes[0]) + rest)[|Encode(codes[0])|..] == rest;
      assert AllPlain(codes) == [Plain(codes[0])] + AllPlain(codes[1..]);
    }
    PlainHasNoMarkers(AllPlain(codes), 0);
    assert Chars(AllPlain(codes)) == codes;
  }

  // ---- Joining ----

  lemma {:induction false} RawJoins(a: seq<Piece>, b: seq<Piece>)
    requires AllProper(a) && AllProper(b)
    ensures Raw(a + b) == Raw(a) + Raw(b)
    decreases |a|
  {
    hide RawBytes;
    if a == [] {
      assert a + b == b;
    } else {
      assert (a + b)[1..] == a[1..] + b && (a + b)[0] == a[0];
      RawJoins(a[1..], b);
    }
  }

  /** One piece at a time. */
  lemma PieceStep(pieces: seq<Piece>, base: nat)
    requires AllProper(pieces)
    ensures pieces == [] ==> Raw(pieces) == [] && Markers(pieces, base) == [] && InvalidOffsets(pieces, base) == []
    ensures pieces != [] ==>
      var rest, next := pieces[1..], base + |RawBytes(pieces[0])|;
      && |Raw(pieces)| == |RawBytes(pieces[0])| + |Raw(rest)|
      && Markers(pieces, base) == (if pieces[0].Surrogate? then [Marker(base, pieces[0].unit)] else []) + Markers(rest, next)
      && InvalidOffsets(pieces, base) == (if pieces[0].Malformed? then [base] else []) + InvalidOffsets(rest, next)
  {
    hide RawBytes;
    hide Proper;
  }

  lemma {:induction false} MarkersJoin(a: seq<Piece>, b: seq<Piece>, base: nat)
    requires AllProper(a) && AllProper(b)
    ensures Markers(a + b, base) == Markers(a, base) + Markers(b, base + |Raw(a)|)
    decreases |a|
  {
    hide RawBytes;
    hide Raw;
    hide Markers;
    hide InvalidOffsets;
    hide Proper;
    PieceStep(a, base);
    if a == [] {
      assert a + b == b;
    } else {
      PieceStep(a + b, base);
      assert (a + b)[1..] == a[1..] + b && (a + b)[0] == a[0];
      MarkersJoin(a[1..], b, base + |RawBytes(a[0])|);
    }
  }

  lemma {:induction false} InvalidJoins(a: seq<Piece>, b: seq<Piece>, base: nat)
    requires AllProper(a) && AllProper(b)
    ensures InvalidOffsets(a + b, base) == InvalidOffsets(a, base) + InvalidOffsets(b, base + |Raw(a)|)
    decreases |a|
  {
    hide RawBytes;
    hide Raw;
    hide Markers;
    hide InvalidOffsets;
    hide Proper;
    PieceStep(a, base);
    if a == [] {
      assert a + b == b;
    } else {
      PieceStep(a + b, base);
      assert (a + b)[1..] == a[1..] + b && (a + b)[0] == a[0];
      InvalidJoins(a[1..], b, base + |RawBytes(a[0])|);
    }
  }

  lemma Joins(a: seq<Piece>, b: seq<Piece>, base: nat)
    requires AllProper(a) && AllProper(b)
    ensures Raw(a + b) == Raw(a) + Raw(b)
    ensures Markers(a + b, base) == Markers(a, base) + Markers(b, base + |Raw(a)|)
    ensures InvalidOffsets(a + b, base) == InvalidOffsets(a, base) + InvalidOffsets(b, base + |Raw(a)|)
  {
    hide Raw;
    hide Markers;
    hide InvalidOffsets;
    RawJoins(a, b);
    MarkersJoin(a, b, base);
    InvalidJoins(a, b, base);
  }

  lemma OnePiece(piece: Piece, base: nat)
    requires Proper(piece)
    ensures Raw([piece]) == RawBytes(piece)
    ensures Markers([piece], base) == if piece.Surrogate? then [Marker(base, piece.unit)] else []
    ensures InvalidOffsets([piece], base) == if piece.Malformed? then [base] else []
  {
    assert [piece][1..] == [];
  }

  // ---- Building ----

  /** The pieces before `offset` are done. */
  ghost predicate Built(source: seq<Byte>, offset: nat, done: seq<Piece>, carrier: seq<nat>, surrogates: seq<Marker>,
                        invalid: seq<nat>)
  {
    && offset <= |source| && AllProper(done) && Pieces(source) == done + Pieces(source[offset..])
    && |Raw(done)| == offset && carrier == Chars(done)
    && surrogates == Markers(done, 0) && invalid == InvalidOffsets(done, 0)
  }

  lemma BuiltNext(source: seq<Byte>, offset: nat, done: seq<Piece>, carrier: seq<nat>, surrogates: seq<Marker>,
                  invalid: seq<nat>)
    requires Built(source, offset, done, carrier, surrogates, invalid) && offset < |source|
    ensures var (piece, width) := FirstPiece(source[offset..]);
            Built(source, offset + width, done + [piece], carrier + [Carrier(piece)],
                  surrogates + (if piece.Surrogate? then [Marker(offset, piece.unit)] else []),
                  invalid + (if piece.Malformed? then [offset] else []))
  {
    hide FirstPiece;
    hide RawBytes;
    hide Carrier;
    hide Raw;
    hide Markers;
    hide InvalidOffsets;
    var (piece, width) := FirstPiece(source[offset..]);
    Joins(done, [piece], 0);
    OnePiece(piece, offset);
    var rest := source[offset + width..];
    assert source[offset..][width..] == rest;
    assert done + ([piece] + Pieces(rest)) == (done + [piece]) + Pieces(rest);
  }

  lemma BuiltStart(source: seq<Byte>)
    ensures Built(source, 0, [], [], [], [])
  {
    hide Pieces;
    assert source[0..] == source && [] + Pieces(source) == Pieces(source);
  }

  lemma BuiltEnd(source: seq<Byte>, done: seq<Piece>, carrier: seq<nat>, surrogates: seq<Marker>, invalid: seq<nat>)
    requires Built(source, |source|, done, carrier, surrogates, invalid)
    ensures TextOf(Pieces(source))
         == SourceText(if surrogates == [] && invalid == [] then None else Some(source), carrier, surrogates, invalid)
  {
    PiecesAreSource(source);
    assert Pieces([]) == [] && done + [] == done;
  }

  datatype TextError = TooLong

  method TryFromRawBytes(source: seq<Byte>) returns (r: Result<SourceText, TextError>)
    ensures r == if |source| > U32_MAX then Err(TooLong) else Ok(TextOf(Pieces(source)))
  {
    hide Pieces;
    hide FirstPiece;
    hide Built;
    hide Carrier;
    hide TextOf;
    if |source| > U32_MAX {
      return Err(TooLong);
    }
    var carrier: seq<nat>, surrogates: seq<Marker>, invalid: seq<nat>, offset: nat := [], [], [], 0;
    ghost var done: seq<Piece> := [];
    BuiltStart(source);
    while offset < |source|
      invariant offset <= |source| && Built(source, offset, done, carrier, surrogates, invalid)
      decreases |source| - offset
    {
      BuiltNext(source, offset, done, carrier, surrogates, invalid);
      var (piece, width) := FirstPiece(source[offset..]);
      match piece {
        case Plain(_) =>
          assert surrogates + [] == surrogates && invalid + [] == invalid;
        case Surrogate(unit) =>
          assert invalid + [] == invalid;
          surrogates := surrogates + [Marker(offset, unit)];
        case Malformed(_) =>
          assert surrogates + [] == surrogates;
          invalid := invalid + [offset];
      }
      carrier := carrier + [Carrier(piece)];
      offset := offset + width;
      done := done + [piece];
    }
    BuiltEnd(source, done, carrier, surrogates, invalid);
    return Ok(SourceText(if surrogates == [] && invalid == [] then None else Some(source), carrier, surrogates, invalid));
  }
}
