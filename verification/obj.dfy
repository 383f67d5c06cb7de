/** The Wavefront OBJ reader: tokenising, `v/vt/vn` face-vertex parsing,
    line dispatch and fan triangulation. */
module Obj {
  import opened Wrappers
  import opened Numeric
  import opened Point2d
  import opened Point3d
  import opened Triangle

  /** One more than the largest `usize` on a 64-bit target. */
  const USIZE_LIMIT: nat := 0x1_0000_0000_0000_0000

  datatype ObjError =
    | ParseIntError      // an index that `usize::from_str` rejects
    | ZeroIndex          // index 0: the `- 1` underflows `usize`
    | ParseFloatError    // a coordinate that `f32::from_str` rejects
    | MissingToken       // a `v`, `vt` or `vn` line with too few coordinates

  // ---------------------------------------------------------------------
  // Splitting on '/'

  /** `str::split(sep)`: the pieces between separators, never an empty list. */
  function Split(s: string, sep: char): (parts: seq<string>)
    ensures |parts| >= 1
    ensures forall i :: 0 <= i < |parts| ==> sep !in parts[i]
    decreases |s|
  {
    if |s| == 0 then [""]
    else
      var rest := Split(s[1..], sep);
      if s[0] == sep then [""] + rest
      else [[s[0]] + rest[0]] + rest[1..]
  }

  /** The pieces put back together with the separator between them. */
  function Join(parts: seq<string>, sep: char): string
    requires |parts| >= 1
    decreases |parts|
  {
    if |parts| == 1 then parts[0] else parts[0] + [sep] + Join(parts[1..], sep)
  }

  lemma {:induction false} JoinSplit(s: string, sep: char)
    ensures Join(Split(s, sep), sep) == s
    decreases |s|
  {
    if |s| > 0 {
      JoinSplit(s[1..], sep);
      var rest := Split(s[1..], sep);
      if s[0] != sep {
        var parts := [[s[0]] + rest[0]] + rest[1..];
        if |rest| > 1 {
          assert parts[1..] == rest[1..];
        }
        assert s == [s[0]] + s[1..];
      } else {
        assert ([""] + rest)[1..] == rest;
      }
    }
  }

  /** Splitting a piece free of separators, followed by a separator, peels it off. */
  lemma {:induction false} SplitCons(x: string, sep: char, rest: string)
    requires sep !in x
    ensures Split(x + [sep] + rest, sep) == [x] + Split(rest, sep)
    decreases |x|
  {
    if |x| == 0 {
      assert x + [sep] + rest == [sep] + rest;
      assert ([sep] + rest)[1..] == rest;
    } else {
      SplitCons(x[1..], sep, rest);
      assert (x + [sep] + rest)[1..] == x[1..] + [sep] + rest;
      assert [x[0]] + x[1..] == x;
    }
  }

  lemma {:induction false} SplitNoSeparator(x: string, sep: char)
    requires sep !in x
    ensures Split(x, sep) == [x]
    decreases |x|
  {
    if |x| > 0 {
      SplitNoSeparator(x[1..], sep);
      assert [x[0]] + x[1..] == x;
    }
  }

  // ---------------------------------------------------------------------
  // Whitespace tokenising

  /** `char::is_whitespace`: the Unicode `White_Space` property. */
  predicate IsWhitespace(c: char) {
    || ('\t' <= c <= '\r') || c == ' ' || c == '\U{0085}' || c == '\U{00A0}' || c == '\U{1680}'
    || ('\U{2000}' <= c <= '\U{200A}') || c == '\U{2028}' || c == '\U{2029}' || c == '\U{202F}'
    || c == '\U{205F}' || c == '\U{3000}'
  }


  /** The longest prefix without whitespace. */
  function TakeToken(s: string): (t: string)
    ensures |t| <= |s| && t == s[..|t|]
    ensures forall i :: 0 <= i < |t| ==> !IsWhitespace(t[i])
    ensures |t| < |s| ==> IsWhitespace(s[|t|])
  {
    if |s| == 0 || IsWhitespace(s[0]) then [] else [s[0]] + TakeToken(s[1..])
  }

  /** `str::split_whitespace`: the maximal runs of non-whitespace
      characters; every token is non-empty and free of whitespace. */
  function SplitWhitespace(s: string): (tokens: seq<string>)
    ensures forall i :: 0 <= i < |tokens| ==> |tokens[i]| > 0
    ensures forall i, j :: 0 <= i < |tokens| && 0 <= j < |tokens[i]| ==> !IsWhitespace(tokens[i][j])
    decreases |s|
  {
    if |s| == 0 then []
    else if IsWhitespace(s[0]) then SplitWhitespace(s[1..])
    else
      var t := TakeToken(s);
      [t] + SplitWhitespace(s[|t|..])
  }

  function Concat(parts: seq<string>): string {
    if |parts| == 0 then [] else parts[0] + Concat(parts[1..])
  }

  /** The characters of `s` that are not whitespace, in order. */
  function NonWhitespace(s: string): string {
    if |s| == 0 then []
    else if IsWhitespace(s[0]) then NonWhitespace(s[1..])
    else [s[0]] + NonWhitespace(s[1..])
  }

  lemma {:induction false} NonWhitespaceAppend(a: string, b: string)
    ensures NonWhitespace(a + b) == NonWhitespace(a) + NonWhitespace(b)
    decreases |a|
  {
    if |a| == 0 {
      assert a + b == b;
    } else {
      NonWhitespaceAppend(a[1..], b);
      assert (a + b)[1..] == a[1..] + b;
    }
  }

  lemma {:induction false} NonWhitespaceOfToken(t: string)
    requires forall i :: 0 <= i < |t| ==> !IsWhitespace(t[i])
    ensures NonWhitespace(t) == t
    decreases |t|
  {
    if |t| > 0 {
      NonWhitespaceOfToken(t[1..]);
      assert [t[0]] + t[1..] == t;
    }
  }

  /** The tokens, run together, are exactly the non-whitespace characters:
      tokenising loses nothing but whitespace. */
  lemma {:induction false} TokensCoverText(s: string)
    ensures Concat(SplitWhitespace(s)) == NonWhitespace(s)
    decreases |s|
  {
    if |s| > 0 {
      if IsWhitespace(s[0]) {
        TokensCoverText(s[1..]);
      } else {
        var t := TakeToken(s);
        TokensCoverText(s[|t|..]);
        assert s == t + s[|t|..];
        NonWhitespaceAppend(t, s[|t|..]);
        NonWhitespaceOfToken(t);
      }
    }
  }

  // ---------------------------------------------------------------------
  // Integers

  predicate IsDigit(c: char) {
    '0' <= c <= '9'
  }

  function DigitValue(c: char): nat
    requires IsDigit(c)
  {
    c as int - '0' as int
  }

  /** The value of a string of decimal digits, most significant first. */
  function DigitsValue(s: string): nat
    requires forall i :: 0 <= i < |s| ==> IsDigit(s[i])
    decreases |s|
  {
    if |s| == 0 then 0 else 10 * DigitsValue(s[..|s| - 1]) + DigitValue(s[|s| - 1])
  }

  /** `usize::from_str`: an optional `+`, then at least one decimal digit,
      with a value below 2^64. */
  function ParseUsize(s: string): (r: Option<nat>)
    ensures r.Some? ==> r.value < USIZE_LIMIT
    ensures |s| == 0 ==> r.None?
    ensures s == "+" ==> r.None?
    ensures (exists i :: 0 <= i < |s| && !IsDigit(s[i]) && !(i == 0 && s[i] == '+')) ==> r.None?
    ensures r.Some? ==> forall i :: 0 <= i < |s| ==> IsDigit(s[i]) || (i == 0 && s[i] == '+')
    ensures r.Some? && IsDigit(s[0]) ==> r.value == DigitsValue(s)
    ensures r.Some? && s[0] == '+' ==> ParseUsize(s[1..]) == r
    ensures |s| > 0 && (forall i :: 0 <= i < |s| ==> IsDigit(s[i])) && DigitsValue(s) < USIZE_LIMIT ==> r == Some(DigitsValue(s))
    ensures |s| > 1 && s[0] == '+' && s[1] != '+' ==> r == ParseUsize(s[1..])
  {
    var digits := if |s| > 0 && s[0] == '+' then s[1..] else s;
    if |digits| == 0 || exists i :: 0 <= i < |digits| && !IsDigit(digits[i]) then None
    else
      var value := DigitsValue(digits);
      if value < USIZE_LIMIT then Some(value) else None
  }

  /** The decimal form of `n`, the partner of `ParseUsize`. */
  function ShowNat(n: nat): (s: string)
    ensures |s| >= 1
    ensures forall i :: 0 <= i < |s| ==> IsDigit(s[i])
    decreases n
  {
    if n < 10 then ['0' + n as char] else ShowNat(n / 10) + ['0' + (n % 10) as char]
  }

  lemma {:induction false} ShowNatValue(n: nat)
    ensures DigitsValue(ShowNat(n)) == n
    decreases n
  {
    if n >= 10 {
      ShowNatValue(n / 10);
      var s := ShowNat(n);
      assert s[..|s| - 1] == ShowNat(n / 10);
    }
  }

  /** Parsing the decimal form of a `usize` gives it back. */
  lemma ParseShowNat(n: nat)
    requires n < USIZE_LIMIT
    ensures ParseUsize(ShowNat(n)) == Some(n)
  {
    ShowNatValue(n);
  }

  /** A parsed index, with the `- 1` that turns it 0-based. */
  function ParseIndex(s: string): (r: Result<nat, ObjError>)
    ensures r.Success? <==> ParseUsize(s).Some? && ParseUsize(s).value >= 1
    ensures r.Success? ==> r.value + 1 == ParseUsize(s).value
  {
    match ParseUsize(s)
    case None => Failure(ParseIntError)
    case Some(n) => if n == 0 then Failure(ZeroIndex) else Success(n - 1)
  }

  // ---------------------------------------------------------------------
  // Face vertices

  /** The 0-based position, texture-coordinate and normal indices of one face corner. */
  datatype FaceVertex = FaceVertex(v: nat, vt: Option<nat>, vn: Option<nat>)

  /** An optional index: a missing or empty piece gives `None`. */
  function ParseOptionalIndex(parts: seq<string>, i: nat): (r: Result<Option<nat>, ObjError>)
    ensures (i >= |parts| || parts[i] == "") ==> r == Success(None)
    ensures i < |parts| && parts[i] != "" ==>
      && (r.Success? <==> ParseIndex(parts[i]).Success?)
      && (r.Success? ==> r.value == Some(ParseIndex(parts[i]).value))
  {
    if i >= |parts| || parts[i] == "" then Success(None)
    else
      var n :- ParseIndex(parts[i]);
      Success(Some(n))
  }

  /** The decimal form of `n + 1` parses back to the index `n`. */
  lemma ParseIndexOfShown(n: nat)
    requires n + 1 < USIZE_LIMIT
    ensures ParseIndex(ShowNat(n + 1)) == Success(n)
  {
    ParseShowNat(n + 1);
  }

  /** Piece `i` holding the decimal form of `o`'s index plus one, or nothing
      when `o` is absent, parses back to `o`. */
  lemma ParseOptionalIndexOfShown(parts: seq<string>, i: nat, o: Option<nat>)
    requires i < |parts| && parts[i] == (if o.Some? then ShowNat(o.value + 1) else "")
    requires o.Some? ==> o.value + 1 < USIZE_LIMIT
    ensures ParseOptionalIndex(parts, i) == Success(o)
  {
    if o.Some? {
      ParseIndexOfShown(o.value);
    }
  }

  /** `parse_face_vertex`: `v`, `v/vt`, `v//vn` or `v/vt/vn`, 1-based in
      the file and 0-based in the result; pieces after the third are ignored. */
  function ParseFaceVertex(s: string): (r: Result<FaceVertex, ObjError>)
    ensures var parts := Split(s, '/');
      r.Success? <==> ParseIndex(parts[0]).Success? && ParseOptionalIndex(parts, 1).Success?
                      && ParseOptionalIndex(parts, 2).Success?
    ensures var parts := Split(s, '/');
      r.Success? ==> r.value == FaceVertex(ParseIndex(parts[0]).value, ParseOptionalIndex(parts, 1).value,
                                           ParseOptionalIndex(parts, 2).value)
  {
    var parts := Split(s, '/');
    var v :- ParseIndex(parts[0]);
    var vt :- ParseOptionalIndex(parts, 1);
    var vn :- ParseOptionalIndex(parts, 2);
    Success(FaceVertex(v, vt, vn))
  }

  /** The OBJ text of a face corner, 1-based: the partner of `ParseFaceVertex`. */
  function FormatFaceVertex(fv: FaceVertex): string {
    ShowNat(fv.v + 1) +
    match (fv.vt, fv.vn)
    case (None, None) => ""
    case (Some(t), None) => "/" + ShowNat(t + 1)
    case (None, Some(n)) => "//" + ShowNat(n + 1)
    case (Some(t), Some(n)) => "/" + ShowNat(t + 1) + "/" + ShowNat(n + 1)
  }

  lemma NoSlashInNumber(n: nat)
    ensures '/' !in ShowNat(n)
  {
  }

  /** Every corner in range is read back from its text: `a` gives
      `(a-1, None, None)`, `a/b` gives `(a-1, Some(b-1), None)`, `a//c` gives
      `(a-1, None, Some(c-1))` and `a/b/c` gives `(a-1, Some(b-1), Some(c-1))`. */
  lemma ParseFormatFaceVertex(fv: FaceVertex)
    requires fv.v + 1 < USIZE_LIMIT
    requires fv.vt.Some? ==> fv.vt.value + 1 < USIZE_LIMIT
    requires fv.vn.Some? ==> fv.vn.value + 1 < USIZE_LIMIT
    ensures ParseFaceVertex(FormatFaceVertex(fv)) == Success(fv)
  {
    if fv.vt.None? && fv.vn.None? {
      ParseOnePiece(fv);
    } else if fv.vn.None? {
      ParseTwoPieces(fv);
    } else {
      ParseThreePieces(fv);
    }
  }

  lemma ParseOnePiece(fv: FaceVertex)
    requires fv.v + 1 < USIZE_LIMIT && fv.vt.None? && fv.vn.None?
    ensures ParseFaceVertex(FormatFaceVertex(fv)) == Success(fv)
  {
    var a := ShowNat(fv.v + 1);
    assert Split(FormatFaceVertex(fv), '/') == [a] by {
      NoSlashInNumber(fv.v + 1);
      assert FormatFaceVertex(fv) == a;
      SplitNoSeparator(a, '/');
    }
    ParseIndexOfShown(fv.v);
    assert ParseOptionalIndex([a], 1) == Success(None);
    assert ParseOptionalIndex([a], 2) == Success(None);
    ParseFaceVertexOfPieces(FormatFaceVertex(fv), fv);
  }

  lemma SplitThree(a: string, b: string, c: string)
    requires '/' !in a && '/' !in b && '/' !in c
    ensures Split(a + "/" + b + "/" + c, '/') == [a, b, c]
  {
    assert a + "/" + b + "/" + c == a + ['/'] + (b + ['/'] + c);
    SplitCons(a, '/', b + ['/'] + c);
    SplitCons(b, '/', c);
    SplitNoSeparator(c, '/');
  }

  lemma ParseTwoPieces(fv: FaceVertex)
    requires fv.v + 1 < USIZE_LIMIT && fv.vt.Some? && fv.vt.value + 1 < USIZE_LIMIT && fv.vn.None?
    ensures ParseFaceVertex(FormatFaceVertex(fv)) == Success(fv)
  {
    var a, b := ShowNat(fv.v + 1), ShowNat(fv.vt.value + 1);
    var parts := [a, b];
    assert Split(FormatFaceVertex(fv), '/') == parts by {
      NoSlashInNumber(fv.v + 1);
      NoSlashInNumber(fv.vt.value + 1);
      assert FormatFaceVertex(fv) == a + "/" + b;
      SplitCons(a, '/', b);
      SplitNoSeparator(b, '/');
    }
    ParseIndexOfShown(fv.v);
    ParseOptionalIndexOfShown(parts, 1, fv.vt);
    assert ParseOptionalIndex(parts, 2) == Success(fv.vn);
    ParseFaceVertexOfPieces(FormatFaceVertex(fv), fv);
  }

  lemma FormatThreePieces(fv: FaceVertex)
    requires fv.vn.Some?
    ensures var b := if fv.vt.Some? then ShowNat(fv.vt.value + 1) else "";
      FormatFaceVertex(fv) == ShowNat(fv.v + 1) + "/" + b + "/" + ShowNat(fv.vn.value + 1)
  {
    var a, c := ShowNat(fv.v + 1), ShowNat(fv.vn.value + 1);
    if fv.vt.None? {
      assert FormatFaceVertex(fv) == a + ("//" + c);
      assert a + "/" + "" + "/" + c == a + ("//" + c);
    } else {
      var b := ShowNat(fv.vt.value + 1);
      assert FormatFaceVertex(fv) == a + ("/" + b + "/" + c);
    }
  }

  lemma ParseThreePieces(fv: FaceVertex)
    requires fv.v + 1 < USIZE_LIMIT && fv.vn.Some? && fv.vn.value + 1 < USIZE_LIMIT
    requires fv.vt.Some? ==> fv.vt.value + 1 < USIZE_LIMIT
    ensures ParseFaceVertex(FormatFaceVertex(fv)) == Success(fv)
  {
    var a, c := ShowNat(fv.v + 1), ShowNat(fv.vn.value + 1);
    var b := if fv.vt.Some? then ShowNat(fv.vt.value + 1) else "";
    var parts := [a, b, c];
    assert Split(FormatFaceVertex(fv), '/') == parts by {
      NoSlashInNumber(fv.v + 1);
      NoSlashInNumber(fv.vn.value + 1);
      if fv.vt.Some? {
        NoSlashInNumber(fv.vt.value + 1);
      }
      FormatThreePieces(fv);
      SplitThree(a, b, c);
    }
    ParseIndexOfShown(fv.v);
    ParseOptionalIndexOfShown(parts, 1, fv.vt);
    ParseOptionalIndexOfShown(parts, 2, fv.vn);
    ParseFaceVertexOfPieces(FormatFaceVertex(fv), fv);
  }

  /** A token whose pieces parse to the three fields of `fv` parses to `fv`. */
  lemma ParseFaceVertexOfPieces(s: string, fv: FaceVertex)
    requires var parts := Split(s, '/');
      && ParseIndex(parts[0]) == Success(fv.v)
      && ParseOptionalIndex(parts, 1) == Success(fv.vt)
      && ParseOptionalIndex(parts, 2) == Success(fv.vn)
    ensures ParseFaceVertex(s) == Success(fv)
  {
  }

  /** A token whose position piece is empty, is `0`, or holds anything but
      an optional `+` and decimal digits is rejected. */
  lemma ParseFaceVertexRejects(s: string)
    requires var first := Split(s, '/')[0];
      || first == "" || first == "0"
      || exists i :: 0 <= i < |first| && !IsDigit(first[i]) && !(i == 0 && first[i] == '+')
    ensures ParseFaceVertex(s).Failure?
  {
    var first := Split(s, '/')[0];
    if first == "0" {
      assert DigitsValue("0") == DigitsValue("") * 10 + 0;
      assert ParseUsize("0") == Some(0);
    }
  }

  /** A non-empty texture-coordinate or normal piece that is not a 1-based
      index is rejected too. */
  lemma ParseFaceVertexRejectsOptional(s: string, i: nat)
    requires i == 1 || i == 2
    requires var parts := Split(s, '/');
      i < |parts| && parts[i] != "" && ParseIndex(parts[i]).Failure?
    ensures ParseFaceVertex(s).Failure?
  {
  }

  // ---------------------------------------------------------------------
  // Lines

  /** A face's corners as three parallel index lists; an absent texture
      coordinate or normal index is stored as 0. */
  datatype Face = Face(vIndices: seq<nat>, vtIndices: seq<nat>, vnIndices: seq<nat>)

  /** The four lists `parse_obj` accumulates. */
  datatype ObjData = ObjData(positions: seq<Point3D>, texcoords: seq<Point2D>, normals: seq<Point3D>, faces: seq<Face>)

  const EmptyData := ObjData([], [], [], [])

  /** Corner `i` of `face` is the parsed corner `c`; an absent texture
      coordinate or normal index reads as 0. */
  predicate FaceCornerIs(face: Face, i: nat, c: Result<FaceVertex, ObjError>) {
    && c.Success?
    && i < |face.vIndices| && i < |face.vtIndices| && i < |face.vnIndices|
    && face.vIndices[i] == c.value.v
    && face.vtIndices[i] == c.value.vt.UnwrapOr(0)
    && face.vnIndices[i] == c.value.vn.UnwrapOr(0)
  }

  /** `face` with corner `fv` appended to its three lists. */
  function AddCorner(face: Face, fv: FaceVertex): Face {
    Face(face.vIndices + [fv.v], face.vtIndices + [fv.vt.UnwrapOr(0)], face.vnIndices + [fv.vn.UnwrapOr(0)])
  }

  /** Appending a corner keeps the earlier corners and adds `fv` after them. */
  lemma CornerOfAddCorner(face: Face, i: nat, c: Result<FaceVertex, ObjError>, fv: FaceVertex)
    requires |face.vtIndices| == |face.vIndices| && |face.vnIndices| == |face.vIndices|
    requires i < |face.vIndices| ==> FaceCornerIs(face, i, c)
    requires i == |face.vIndices| ==> c == Success(fv)
    requires i <= |face.vIndices|
    ensures FaceCornerIs(AddCorner(face, fv), i, c)
  {
  }

  /** The face built from the corner tokens of an `f` line, stopping at the first bad corner. */
  function ParseFaceParts(parts: seq<string>): (r: Result<Face, ObjError>)
    ensures r.Success? ==>
      && |r.value.vIndices| == |parts| && |r.value.vtIndices| == |parts| && |r.value.vnIndices| == |parts|
      && forall i :: 0 <= i < |parts| ==> FaceCornerIs(r.value, i, ParseFaceVertex(parts[i]))
    ensures (forall i :: 0 <= i < |parts| ==> ParseFaceVertex(parts[i]).Success?) ==> r.Success?
    decreases |parts|
  {
    if |parts| == 0 then Success(Face([], [], []))
    else
      var init := parts[..|parts| - 1];
      var f :- ParseFaceParts(init);
      var fv :- ParseFaceVertex(parts[|parts| - 1]);
      var face := AddCorner(f, fv);
      assert forall i :: 0 <= i < |parts| ==> FaceCornerIs(face, i, ParseFaceVertex(parts[i])) by {
        forall i | 0 <= i < |parts| ensures FaceCornerIs(face, i, ParseFaceVertex(parts[i])) {
          if i < |init| {
            assert init[i] == parts[i];
            CornerOfAddCorner(f, i, ParseFaceVertex(init[i]), fv);
          } else {
            CornerOfAddCorner(f, i, Success(fv), fv);
          }
        }
      }
      Success(face)
  }

  /** Coordinate `i` of a `v`, `vt` or `vn` line. The source indexes the
      token list unchecked; a missing token is reported as `MissingToken`. */
  function Coordinate(tokens: seq<string>, i: nat, parseFloat: string -> Option<real>): (r: Result<real, ObjError>)
    ensures i >= |tokens| ==> r == Failure(MissingToken)
    ensures i < |tokens| && parseFloat(tokens[i]).Some? ==> r == Success(parseFloat(tokens[i]).value)
  {
    if i >= |tokens| then Failure(MissingToken)
    else match parseFloat(tokens[i])
      case None => Failure(ParseFloatError)
      case Some(x) => Success(x)
  }

  /** The first token of a line, or the empty string for a blank line. */
  function Keyword(line: string): string {
    var tokens := SplitWhitespace(line);
    if |tokens| == 0 then "" else tokens[0]
  }

  /** Blank lines, comments and lines with an unknown keyword. */
  predicate Ignored(line: string) {
    var k := Keyword(line);
    (|k| > 0 && k[0] == '#') || k !in {"v", "vt", "vn", "f"}
  }

  /** Tokens 1 to `n` exist and each parses as a float. */
  predicate CoordinatesParse(tokens: seq<string>, n: nat, parseFloat: string -> Option<real>) {
    |tokens| > n && forall i :: 1 <= i <= n ==> parseFloat(tokens[i]).Some?
  }

  /** The lines `parse_obj` accepts: ignored lines, `v` and `vn` lines with
      three float tokens, `vt` lines with two, and `f` lines whose corner
      tokens all parse. Tokens after those the keyword needs are not read. */
  predicate LineParses(line: string, parseFloat: string -> Option<real>) {
    var tokens := SplitWhitespace(line);
    var k := Keyword(line);
    if Ignored(line) then true
    else if k == "v" || k == "vn" then CoordinatesParse(tokens, 3, parseFloat)
    else if k == "vt" then CoordinatesParse(tokens, 2, parseFloat)
    else forall i :: 1 <= i < |tokens| ==> ParseFaceVertex(tokens[i]).Success?
  }

  /** Token `i` of a line read as a float, 0 where it is missing or malformed. */
  function FloatAt(tokens: seq<string>, i: nat, parseFloat: string -> Option<real>): real {
    if i < |tokens| then parseFloat(tokens[i]).UnwrapOr(0.0) else 0.0
  }

  /** The point a `v` or `vn` line denotes: its tokens 1 to 3. */
  function LinePoint3(line: string, parseFloat: string -> Option<real>): Point3D {
    var tokens := SplitWhitespace(line);
    Point3D(FloatAt(tokens, 1, parseFloat), FloatAt(tokens, 2, parseFloat), FloatAt(tokens, 3, parseFloat))
  }

  /** The texture coordinate a `vt` line denotes: its tokens 1 and 2. */
  function LinePoint2(line: string, parseFloat: string -> Option<real>): Point2D {
    var tokens := SplitWhitespace(line);
    Point2D(FloatAt(tokens, 1, parseFloat), FloatAt(tokens, 2, parseFloat))
  }

  /** The face an `f` line denotes: its corner tokens, read by `ParseFaceParts`. */
  function LineFace(line: string): Face {
    var tokens := SplitWhitespace(line);
    var r := ParseFaceParts(if |tokens| == 0 then [] else tokens[1..]);
    if r.Success? then r.value else Face([], [], [])
  }

  /** One iteration of the line loop of `parse_obj`. `parseFloat` stands for `f32::from_str`. */
  function ParseLine(data: ObjData, line: string, parseFloat: string -> Option<real>): (r: Result<ObjData, ObjError>)
    ensures r.Success? <==> LineParses(line, parseFloat)
    ensures Ignored(line) ==> r == Success(data)
    ensures r.Success? && Keyword(line) == "v" ==>
      |r.value.positions| == |data.positions| + 1 && r.value.positions[..|data.positions|] == data.positions
      && r.value.positions[|data.positions|] == LinePoint3(line, parseFloat)
      && r.value.(positions := data.positions) == data
    ensures r.Success? && Keyword(line) == "vt" ==>
      |r.value.texcoords| == |data.texcoords| + 1 && r.value.texcoords[..|data.texcoords|] == data.texcoords
      && r.value.texcoords[|data.texcoords|] == LinePoint2(line, parseFloat)
      && r.value.(texcoords := data.texcoords) == data
    ensures r.Success? && Keyword(line) == "vn" ==>
      |r.value.normals| == |data.normals| + 1 && r.value.normals[..|data.normals|] == data.normals
      && r.value.normals[|data.normals|] == LinePoint3(line, parseFloat)
      && r.value.(normals := data.normals) == data
    ensures r.Success? && Keyword(line) == "f" ==>
      && |r.value.faces| == |data.faces| + 1 && r.value.faces[..|data.faces|] == data.faces
      && r.value.faces[|data.faces|] == LineFace(line)
      && r.value.(faces := data.faces) == data
      && |r.value.faces[|data.faces|].vIndices| == |SplitWhitespace(line)| - 1
  {
    var tokens := SplitWhitespace(line);
    if |tokens| == 0 || (|tokens[0]| > 0 && tokens[0][0] == '#') then Success(data)
    else if tokens[0] == "v" then
      var x :- Coordinate(tokens, 1, parseFloat);
      var y :- Coordinate(tokens, 2, parseFloat);
      var z :- Coordinate(tokens, 3, parseFloat);
      Success(data.(positions := data.positions + [Point3D(x, y, z)]))
    else if tokens[0] == "vt" then
      var u :- Coordinate(tokens, 1, parseFloat);
      var v :- Coordinate(tokens, 2, parseFloat);
      Success(data.(texcoords := data.texcoords + [Point2D(u, v)]))
    else if tokens[0] == "vn" then
      var x :- Coordinate(tokens, 1, parseFloat);
      var y :- Coordinate(tokens, 2, parseFloat);
      var z :- Coordinate(tokens, 3, parseFloat);
      Success(data.(normals := data.normals + [Point3D(x, y, z)]))
    else if tokens[0] == "f" then
      var face :- ParseFaceParts(tokens[1..]);
      Success(data.(faces := data.faces + [face]))
    else Success(data)
  }

  /** The loop of `parse_obj` from `data` onwards, stopping at the first
      error. It succeeds exactly when every line is accepted on its own,
      and then the lists hold the entries of the lines, in file order,
      after those already in `data`. */
  function ParseLines(data: ObjData, lines: seq<string>, parseFloat: string -> Option<real>): (r: Result<ObjData, ObjError>)
    ensures r.Success? <==> forall i :: 0 <= i < |lines| ==> LineParses(lines[i], parseFloat)
    ensures r.Success? ==>
      r.value == ObjData(data.positions + Positions(lines, parseFloat), data.texcoords + TexCoords(lines, parseFloat),
                         data.normals + Normals(lines, parseFloat), data.faces + Faces(lines))
    decreases |lines|
  {
    if |lines| == 0 then Success(data)
    else
      var next :- ParseLine(data, lines[0], parseFloat);
      ParseLineAppends(data, lines[0], parseFloat);
      ContentsStep(data, next, lines, parseFloat);
      assert forall i :: 1 <= i < |lines| ==> lines[i] == lines[1..][i - 1];
      ParseLines(next, lines[1..], parseFloat)
  }

  /** `parse_obj` over the lines of the file: it succeeds exactly when
      every line is accepted, and then returns the points, texture
      coordinates, normals and faces of the lines in file order. */
  function ParseObj(lines: seq<string>, parseFloat: string -> Option<real>): (r: Result<ObjData, ObjError>)
    ensures r.Success? <==> forall i :: 0 <= i < |lines| ==> LineParses(lines[i], parseFloat)
    ensures r.Success? ==> r.value == ObjData(Positions(lines, parseFloat), TexCoords(lines, parseFloat), Normals(lines, parseFloat), Faces(lines))
  {
    EmptyConcat(Positions(lines, parseFloat));
    EmptyConcat(TexCoords(lines, parseFloat));
    EmptyConcat(Normals(lines, parseFloat));
    EmptyConcat(Faces(lines));
    ParseLines(EmptyData, lines, parseFloat)
  }

  /** The entry a line adds to each list: one point for a `v` line, one
      texture coordinate for a `vt` line, one normal for a `vn` line, one
      face for an `f` line, nothing otherwise. */
  function LinePositions(line: string, parseFloat: string -> Option<real>): seq<Point3D> {
    if Keyword(line) == "v" then [LinePoint3(line, parseFloat)] else []
  }

  function LineTexCoords(line: string, parseFloat: string -> Option<real>): seq<Point2D> {
    if Keyword(line) == "vt" then [LinePoint2(line, parseFloat)] else []
  }

  function LineNormals(line: string, parseFloat: string -> Option<real>): seq<Point3D> {
    if Keyword(line) == "vn" then [LinePoint3(line, parseFloat)] else []
  }

  function LineFaces(line: string): seq<Face> {
    if Keyword(line) == "f" then [LineFace(line)] else []
  }

  /** The points of the `v` lines, in file order. */
  function Positions(lines: seq<string>, parseFloat: string -> Option<real>): seq<Point3D>
    decreases |lines|
  {
    if |lines| == 0 then []
    else LinePositions(lines[0], parseFloat) + Positions(lines[1..], parseFloat)
  }

  /** The texture coordinates of the `vt` lines, in file order. */
  function TexCoords(lines: seq<string>, parseFloat: string -> Option<real>): seq<Point2D>
    decreases |lines|
  {
    if |lines| == 0 then []
    else LineTexCoords(lines[0], parseFloat) + TexCoords(lines[1..], parseFloat)
  }

  /** The normals of the `vn` lines, in file order. */
  function Normals(lines: seq<string>, parseFloat: string -> Option<real>): seq<Point3D>
    decreases |lines|
  {
    if |lines| == 0 then []
    else LineNormals(lines[0], parseFloat) + Normals(lines[1..], parseFloat)
  }

  /** The faces of the `f` lines, in file order. */
  function Faces(lines: seq<string>): seq<Face>
    decreases |lines|
  {
    if |lines| == 0 then []
    else LineFaces(lines[0]) + Faces(lines[1..])
  }

  /** One accepted line appends exactly its own entry to the one list its keyword names. */
  lemma ParseLineAppends(data: ObjData, line: string, parseFloat: string -> Option<real>)
    requires ParseLine(data, line, parseFloat).Success?
    ensures ParseLine(data, line, parseFloat).value
         == ObjData(data.positions + LinePositions(line, parseFloat), data.texcoords + LineTexCoords(line, parseFloat),
                    data.normals + LineNormals(line, parseFloat), data.faces + LineFaces(line))
  {
    var next := ParseLine(data, line, parseFloat).value;
    var k := Keyword(line);
    if k == "v" {
      assert next.positions == next.positions[..|data.positions|] + [next.positions[|data.positions|]];
    } else if k == "vt" {
      assert next.texcoords == next.texcoords[..|data.texcoords|] + [next.texcoords[|data.texcoords|]];
    } else if k == "vn" {
      assert next.normals == next.normals[..|data.normals|] + [next.normals[|data.normals|]];
    } else if k == "f" {
      assert next.faces == next.faces[..|data.faces|] + [next.faces[|data.faces|]];
    }
  }

  /** Appending the first line's entries, then those of the rest, appends
      the entries of all the lines. */
  lemma ContentsStep(data: ObjData, next: ObjData, lines: seq<string>, parseFloat: string -> Option<real>)
    requires |lines| > 0
    requires next == ObjData(data.positions + LinePositions(lines[0], parseFloat), data.texcoords + LineTexCoords(lines[0], parseFloat),
                             data.normals + LineNormals(lines[0], parseFloat), data.faces + LineFaces(lines[0]))
    ensures ObjData(next.positions + Positions(lines[1..], parseFloat), next.texcoords + TexCoords(lines[1..], parseFloat),
                    next.normals + Normals(lines[1..], parseFloat), next.faces + Faces(lines[1..]))
         == ObjData(data.positions + Positions(lines, parseFloat), data.texcoords + TexCoords(lines, parseFloat),
                    data.normals + Normals(lines, parseFloat), data.faces + Faces(lines))
  {
    var l, rest := lines[0], lines[1..];
    ConcatAssoc(data.positions, LinePositions(l, parseFloat), Positions(rest, parseFloat));
    ConcatAssoc(data.texcoords, LineTexCoords(l, parseFloat), TexCoords(rest, parseFloat));
    ConcatAssoc(data.normals, LineNormals(l, parseFloat), Normals(rest, parseFloat));
    ConcatAssoc(data.faces, LineFaces(l), Faces(rest));
  }

  lemma EmptyConcat<T>(s: seq<T>)
    ensures [] + s == s
  {
  }

  lemma ConcatAssoc<T>(a: seq<T>, b: seq<T>, c: seq<T>)
    ensures (a + b) + c == a + (b + c)
  {
  }

  /** The number of lines with keyword `k`. */
  function CountKeyword(lines: seq<string>, k: string): nat
    decreases |lines|
  {
    if |lines| == 0 then 0 else (if Keyword(lines[0]) == k then 1 else 0) + CountKeyword(lines[1..], k)
  }

  /** A successful parse has one position per `v` line, one texture
      coordinate per `vt` line, one normal per `vn` line and one face per
      `f` line; earlier entries are never changed. */
  lemma {:induction false} ParseLinesCounts(data: ObjData, lines: seq<string>, parseFloat: string -> Option<real>)
    requires ParseLines(data, lines, parseFloat).Success?
    ensures var out := ParseLines(data, lines, parseFloat).value;
      && |out.positions| == |data.positions| + CountKeyword(lines, "v")
      && |out.texcoords| == |data.texcoords| + CountKeyword(lines, "vt")
      && |out.normals| == |data.normals| + CountKeyword(lines, "vn")
      && |out.faces| == |data.faces| + CountKeyword(lines, "f")
      && out.positions[..|data.positions|] == data.positions
      && out.faces[..|data.faces|] == data.faces
    decreases |lines|
  {
    if |lines| > 0 {
      var next := ParseLine(data, lines[0], parseFloat).value;
      ParseLinesCounts(next, lines[1..], parseFloat);
      var out := ParseLines(data, lines, parseFloat).value;
      assert out == ParseLines(next, lines[1..], parseFloat).value;
      assert out.positions[..|data.positions|] == out.positions[..|next.positions|][..|data.positions|];
      assert out.faces[..|data.faces|] == out.faces[..|next.faces|][..|data.faces|];
    }
  }

  /** A file made of blank, comment and unknown-keyword lines yields four empty lists. */
  lemma {:induction false} IgnoredLinesKeepData(data: ObjData, lines: seq<string>, parseFloat: string -> Option<real>)
    requires forall i :: 0 <= i < |lines| ==> Ignored(lines[i])
    ensures ParseLines(data, lines, parseFloat) == Success(data)
    decreases |lines|
  {
    if |lines| > 0 {
      IgnoredLinesKeepData(data, lines[1..], parseFloat);
    }
  }

  // ---------------------------------------------------------------------
  // Fan triangulation

  /** Every index a face with at least three corners uses is in range. */
  predicate FaceIndexable(f: Face, vertices: nat, texcoords: nat, normals: nat) {
    |f.vIndices| >= 3 ==>
      && |f.vtIndices| >= |f.vIndices| && |f.vnIndices| >= |f.vIndices|
      && (forall k :: 0 <= k < |f.vIndices| ==> f.vIndices[k] < vertices)
      && (forall k :: 0 <= k < |f.vIndices| ==> f.vtIndices[k] < texcoords)
      && (forall k :: 0 <= k < |f.vIndices| ==> f.vnIndices[k] < normals)
  }

  /** The number of triangles a face of `n` corners contributes: `max(0, n - 2)`. */
  function FanSize(f: Face): nat {
    if |f.vIndices| < 3 then 0 else |f.vIndices| - 2
  }

  function TriangleCount(faces: seq<Face>): nat
    decreases |faces|
  {
    if |faces| == 0 then 0 else TriangleCount(faces[..|faces| - 1]) + FanSize(faces[|faces| - 1])
  }

  /** The triangle on corners `i`, `j`, `k` of a face, with an empty bounding box. */
  function Corners(f: Face, vertices: seq<Point3D>, texcoords: seq<Point2D>, normals: seq<Point3D>, i: nat, j: nat, k: nat): Triangle3D
    requires |f.vIndices| >= 3 && FaceIndexable(f, |vertices|, |texcoords|, |normals|)
    requires i < |f.vIndices| && j < |f.vIndices| && k < |f.vIndices|
  {
    Triangle3D(vertices[f.vIndices[i]], vertices[f.vIndices[j]], vertices[f.vIndices[k]],
               texcoords[f.vtIndices[i]], texcoords[f.vtIndices[j]], texcoords[f.vtIndices[k]],
               normals[f.vnIndices[i]], normals[f.vnIndices[j]], normals[f.vnIndices[k]],
               0, 0, 0, 0)
  }

  /** The fan of a face: triangle `i - 1` on corners `0`, `i`, `i + 1`. */
  function Fan(f: Face, vertices: seq<Point3D>, texcoords: seq<Point2D>, normals: seq<Point3D>): (fan: seq<Triangle3D>)
    requires FaceIndexable(f, |vertices|, |texcoords|, |normals|)
    ensures |fan| == FanSize(f)
  {
    if |f.vIndices| < 3 then []
    else seq(|f.vIndices| - 2, t requires 0 <= t < |f.vIndices| - 2 => Corners(f, vertices, texcoords, normals, 0, t + 1, t + 2))
  }

  lemma FanElement(f: Face, t: nat, vertices: seq<Point3D>, texcoords: seq<Point2D>, normals: seq<Point3D>)
    requires FaceIndexable(f, |vertices|, |texcoords|, |normals|)
    requires t < FanSize(f)
    ensures Fan(f, vertices, texcoords, normals)[t] == Corners(f, vertices, texcoords, normals, 0, t + 1, t + 2)
  {
    var n := |f.vIndices| - 2;
    var fan := seq(n, i requires 0 <= i < n => Corners(f, vertices, texcoords, normals, 0, i + 1, i + 2));
    assert Fan(f, vertices, texcoords, normals) == fan;
    assert fan[t] == Corners(f, vertices, texcoords, normals, 0, t + 1, t + 2);
  }

  /** The fans of all faces, in face order. */
  function Fans(faces: seq<Face>, vertices: seq<Point3D>, texcoords: seq<Point2D>, normals: seq<Point3D>): seq<Triangle3D>
    requires forall i :: 0 <= i < |faces| ==> FaceIndexable(faces[i], |vertices|, |texcoords|, |normals|)
    decreases |faces|
  {
    if |faces| == 0 then []
    else Fans(faces[..|faces| - 1], vertices, texcoords, normals) + Fan(faces[|faces| - 1], vertices, texcoords, normals)
  }

  /** Appending one face appends its fan. */
  lemma FansSnoc(faces: seq<Face>, n: nat, vertices: seq<Point3D>, texcoords: seq<Point2D>, normals: seq<Point3D>)
    requires forall i :: 0 <= i < |faces| ==> FaceIndexable(faces[i], |vertices|, |texcoords|, |normals|)
    requires n < |faces|
    ensures Fans(faces[..n + 1], vertices, texcoords, normals)
         == Fans(faces[..n], vertices, texcoords, normals) + Fan(faces[n], vertices, texcoords, normals)
  {
    assert faces[..n + 1][..n] == faces[..n];
  }

  /** The inner loop of `fan_triangulate_faces`, for one face. */
  method FanOf(face: Face, vertices: seq<Point3D>, texcoords: seq<Point2D>, normals: seq<Point3D>)
    returns (fan: seq<Triangle3D>)
    requires FaceIndexable(face, |vertices|, |texcoords|, |normals|)
    ensures fan == Fan(face, vertices, texcoords, normals)
  {
    fan := [];
    if |face.vIndices| < 3 {
      return;
    }
    ghost var spec := Fan(face, vertices, texcoords, normals);
    var i := 1;
    while i < |face.vIndices| - 1
      invariant 1 <= i <= |face.vIndices| - 1
      invariant fan == spec[..i - 1]
    {
      var a, b, c := vertices[face.vIndices[0]], vertices[face.vIndices[i]], vertices[face.vIndices[i + 1]];
      var ta, tb, tc := texcoords[face.vtIndices[0]], texcoords[face.vtIndices[i]], texcoords[face.vtIndices[i + 1]];
      var na, nb, nc := normals[face.vnIndices[0]], normals[face.vnIndices[i]], normals[face.vnIndices[i + 1]];
      assert spec[..i] == spec[..i - 1] + [Triangle3D(a, b, c, ta, tb, tc, na, nb, nc, 0, 0, 0, 0)];
      fan := fan + [Triangle3D(a, b, c, ta, tb, tc, na, nb, nc, 0, 0, 0, 0)];
      i := i + 1;
    }
    assert spec[..i - 1] == spec;
  }

  /** `fan_triangulate_faces`: the fans of all faces, in face order. */
  method FanTriangulate(faces: seq<Face>, vertices: seq<Point3D>, texcoords: seq<Point2D>, normals: seq<Point3D>)
    returns (triangles: seq<Triangle3D>)
    requires forall i :: 0 <= i < |faces| ==> FaceIndexable(faces[i], |vertices|, |texcoords|, |normals|)
    ensures triangles == Fans(faces, vertices, texcoords, normals)
  {
    triangles := [];
    var fi := 0;
    while fi < |faces|
      invariant 0 <= fi <= |faces|
      invariant triangles == Fans(faces[..fi], vertices, texcoords, normals)
    {
      var fan := FanOf(faces[fi], vertices, texcoords, normals);
      FansSnoc(faces, fi, vertices, texcoords, normals);
      triangles := triangles + fan;
      fi := fi + 1;
    }
    assert faces[..|faces|] == faces;
  }

  /** The output holds `sum of max(0, n - 2)` triangles. */
  lemma {:induction false} FansCount(faces: seq<Face>, vertices: seq<Point3D>, texcoords: seq<Point2D>, normals: seq<Point3D>)
    requires forall i :: 0 <= i < |faces| ==> FaceIndexable(faces[i], |vertices|, |texcoords|, |normals|)
    ensures |Fans(faces, vertices, texcoords, normals)| == TriangleCount(faces)
    decreases |faces|
  {
    if |faces| > 0 {
      FansCount(faces[..|faces| - 1], vertices, texcoords, normals);
    }
  }

  /** A prefix of `c` that starts with `a` makes `a` a prefix of `c`. */
  lemma PrefixOfAppend<T>(a: seq<T>, x: seq<T>, c: seq<T>)
    requires |a + x| <= |c| && c[..|a + x|] == a + x
    ensures |a| <= |c| && c[..|a|] == a
  {
    assert c[..|a|] == c[..|a + x|][..|a|];
  }

  /** The fans of a prefix of the faces are a prefix of the output. */
  lemma {:induction false} FansPrefix(faces: seq<Face>, n: nat, vertices: seq<Point3D>, texcoords: seq<Point2D>, normals: seq<Point3D>)
    requires forall i :: 0 <= i < |faces| ==> FaceIndexable(faces[i], |vertices|, |texcoords|, |normals|)
    requires n <= |faces|
    ensures var pre := Fans(faces[..n], vertices, texcoords, normals);
      |pre| <= |Fans(faces, vertices, texcoords, normals)| && Fans(faces, vertices, texcoords, normals)[..|pre|] == pre
    decreases |faces| - n
  {
    if n < |faces| {
      FansPrefix(faces, n + 1, vertices, texcoords, normals);
      FansSnoc(faces, n, vertices, texcoords, normals);
      PrefixOfAppend(Fans(faces[..n], vertices, texcoords, normals), Fan(faces[n], vertices, texcoords, normals),
                     Fans(faces, vertices, texcoords, normals));
    } else {
      assert faces[..n] == faces;
    }
  }

  /** The triangles of the faces before `fi` and of face `fi` itself fit in the total. */
  lemma {:induction false} TriangleCountPrefix(faces: seq<Face>, fi: nat)
    requires fi < |faces|
    ensures TriangleCount(faces[..fi]) + FanSize(faces[fi]) <= TriangleCount(faces)
    decreases |faces|
  {
    var n := |faces| - 1;
    if fi < n {
      TriangleCountPrefix(faces[..n], fi);
      assert faces[..n][..fi] == faces[..fi];
    } else {
      assert faces[..n] == faces[..fi];
    }
  }

  /** Triangle `t` of face `fi` sits after the triangles of the earlier faces. */
  lemma {:induction false} FanPosition(faces: seq<Face>, fi: nat, t: nat, vertices: seq<Point3D>, texcoords: seq<Point2D>, normals: seq<Point3D>)
    requires forall i :: 0 <= i < |faces| ==> FaceIndexable(faces[i], |vertices|, |texcoords|, |normals|)
    requires fi < |faces| && t < FanSize(faces[fi])
    ensures var k := TriangleCount(faces[..fi]) + t;
      && k < |Fans(faces, vertices, texcoords, normals)|
      && Fans(faces, vertices, texcoords, normals)[k] == Fan(faces[fi], vertices, texcoords, normals)[t]
  {
    TriangleCountPrefix(faces, fi);
    FansCount(faces, vertices, texcoords, normals);
    var all := Fans(faces, vertices, texcoords, normals);
    var before := Fans(faces[..fi], vertices, texcoords, normals);
    var fan := Fan(faces[fi], vertices, texcoords, normals);
    assert Fans(faces[..fi + 1], vertices, texcoords, normals) == before + fan by {
      FansSnoc(faces, fi, vertices, texcoords, normals);
    }
    assert |before| == TriangleCount(faces[..fi]) by {
      FansCount(faces[..fi], vertices, texcoords, normals);
    }
    assert all[..|before + fan|] == before + fan by {
      FansPrefix(faces, fi + 1, vertices, texcoords, normals);
    }
    IndexThroughPrefix(all, before, fan, t);
  }

  lemma IndexThroughPrefix<T>(all: seq<T>, before: seq<T>, fan: seq<T>, t: nat)
    requires |before + fan| <= |all| && all[..|before + fan|] == before + fan
    requires t < |fan|
    ensures |before| + t < |all| && all[|before| + t] == fan[t]
  {
    assert all[|before| + t] == all[..|before + fan|][|before| + t];
  }

  /** Triangle `t` of face `fi` sits after the triangles of the earlier faces
      and uses corners `0`, `t + 1`, `t + 2` of that face, for positions,
      texture coordinates and normals alike. */
  lemma FanCorner(faces: seq<Face>, fi: nat, t: nat, vertices: seq<Point3D>, texcoords: seq<Point2D>, normals: seq<Point3D>)
    requires forall i :: 0 <= i < |faces| ==> FaceIndexable(faces[i], |vertices|, |texcoords|, |normals|)
    requires fi < |faces| && t < FanSize(faces[fi])
    ensures var k := TriangleCount(faces[..fi]) + t;
      && k < |Fans(faces, vertices, texcoords, normals)|
      && Fans(faces, vertices, texcoords, normals)[k] == Corners(faces[fi], vertices, texcoords, normals, 0, t + 1, t + 2)
  {
    FanPosition(faces, fi, t, vertices, texcoords, normals);
    FanElement(faces[fi], t, vertices, texcoords, normals);
  }
}
