/** The JavaRosa text form of a geometry: "lat lon 0.0 0.0" points joined by
    semicolons, printed from GeoJSON and parsed back. */
module JavaRosa {
  import opened Decimals
  import opened Geometry
  import opened Text
  import opened Wording

  const MIN_LAT_LON_PARTS := 2
  const MIN_POLYGON_POINTS := 4

  // ---- splitting and joining ----

  /** `s.split(c)`: always at least one piece. */
  function Split(s: string, c: char): (pieces: seq<string>)
    ensures pieces != []
  {
    if s == "" then [""]
    else
      var rest := Split(s[1..], c);
      if s[0] == c then [""] + rest else [[s[0]] + rest[0]] + rest[1..]
  }

  /** `c.join(pieces)`. */
  function Join(pieces: seq<string>, c: char): string {
    if pieces == [] then ""
    else if |pieces| == 1 then pieces[0]
    else pieces[0] + ([c] + Join(pieces[1..], c))
  }

  lemma {:induction false} SplitPlain(s: string, c: char)
    requires c !in s
    ensures Split(s, c) == [s]
  {
    if s != "" {
      SplitPlain(s[1..], c);
      assert [s[0]] + s[1..] == s;
    }
  }

  lemma {:induction false} SplitAtFirst(s: string, c: char, rest: string)
    requires c !in s
    ensures Split(s + ([c] + rest), c) == [s] + Split(rest, c)
  {
    var whole := s + ([c] + rest);
    if s == "" {
      assert whole[1..] == rest;
    } else {
      SplitAtFirst(s[1..], c, rest);
      assert whole[1..] == s[1..] + ([c] + rest);
      assert [s[0]] + s[1..] == s;
    }
  }

  /** Splitting a joined text gives the pieces back. */
  lemma {:induction false} SplitJoin(pieces: seq<string>, c: char)
    requires pieces != []
    requires forall i :: 0 <= i < |pieces| ==> c !in pieces[i]
    ensures Split(Join(pieces, c), c) == pieces
  {
    if |pieces| == 1 {
      SplitPlain(pieces[0], c);
    } else {
      SplitJoin(pieces[1..], c);
      SplitAtFirst(pieces[0], c, Join(pieces[1..], c));
    }
  }

  /** `s.split()`: the maximal runs without white space. */
  function Words(s: string): seq<string>
    decreases |s|
  {
    if s == "" then []
    else if IsSpace(s[0]) then Words(s[1..])
    else
      var n := WordEnd(s);
      [s[..n]] + Words(s[n..])
  }

  function WordEnd(s: string): (n: nat)
    ensures n <= |s| && (s != "" && !IsSpace(s[0]) ==> n > 0)
  {
    if s == "" || IsSpace(s[0]) then 0 else 1 + WordEnd(s[1..])
  }

  predicate IsWord(w: string) {
    w != "" && forall i :: 0 <= i < |w| ==> !IsSpace(w[i])
  }

  lemma {:induction false} WordEndOf(w: string, rest: string)
    requires forall i :: 0 <= i < |w| ==> !IsSpace(w[i])
    requires rest == "" || IsSpace(rest[0])
    ensures WordEnd(w + rest) == |w|
  {
    if w == "" {
      assert w + rest == rest;
    } else {
      WordEndOf(w[1..], rest);
      assert (w + rest)[1..] == w[1..] + rest;
    }
  }

  lemma FirstWord(w: string, rest: string)
    requires IsWord(w) && (rest == "" || IsSpace(rest[0]))
    ensures Words(w + rest) == [w] + Words(rest)
  {
    WordEndOf(w, rest);
    assert (w + rest)[..|w|] == w && (w + rest)[|w|..] == rest;
  }

  lemma {:induction false} SkipWhite(gap: string, rest: string)
    requires White(gap)
    ensures Words(gap + rest) == Words(rest)
  {
    if gap == "" {
      assert gap + rest == rest;
    } else {
      assert gap[0] in " \t\n\r";
      SkipWhite(gap[1..], rest);
      assert (gap + rest)[1..] == gap[1..] + rest;
    }
  }

  // ---- printing ----

  function PointText(c: Coord): string {
    Decimals.Print(c.lat) + (" " + (Decimals.Print(c.lon) + " 0.0 0.0"))
  }

  function PointTexts(cs: seq<Coord>): (texts: seq<string>)
    ensures |texts| == |cs|
  {
    seq(|cs|, i requires 0 <= i < |cs| => PointText(cs[i]))
  }

  lemma PointTextsSnoc(cs: seq<Coord>, c: Coord)
    ensures PointTexts(cs + [c]) == PointTexts(cs) + [PointText(c)]
  {
    hide PointText;
  }

  /** The text of a list of coordinates. */
  function PrintCoords(cs: seq<Coord>): string {
    Join(PointTexts(cs), ';')
  }

  datatype Printed = Text(text: string) | UnsupportedType

  /** The three-level nesting the printer brings every supported type to. */
  function Nested(g: Geometry): (nested: Option<seq<seq<Coord>>>)
    ensures nested.None? <==> g.Collection?
  {
    match g
    case Point(at) => Some([[at]])
    case LineString(line) => Some([line])
    case MultiPoint(points) => Some([points])
    case Polygon(rings) => Some(rings)
    case MultiLineString(lines) => Some(lines)
    case MultiPolygon(polygons) => Some(Concat(polygons))
    case Collection(_) => None
  }

  lemma NestedIsFlatten(g: Geometry)
    requires !g.Collection?
    ensures Nested(g).Some? && Concat(Nested(g).value) == Flatten(g)
  {
    match g
    case Point(at) => ConcatOne([at]);
    case LineString(line) => ConcatOne(line);
    case MultiPoint(points) => ConcatOne(points);
    case MultiPolygon(polygons) => ConcatTwice(polygons);
    case _ =>
  }

  /** What the printer must produce: the points of the flattened geometry, all
      of them and in that order. */
  function Printing(geometry: Option<Geometry>): Printed {
    match geometry
    case None => Text("")
    case Some(g) => if g.Collection? then UnsupportedType else Text(PrintCoords(Flatten(g)))
  }

  method GeojsonToJavarosa(geometry: Option<Geometry>) returns (r: Printed)
    ensures r == Printing(geometry)
    ensures geometry.None? ==> r == Text("")
    ensures r == UnsupportedType <==> geometry.Some? && geometry.value.Collection?
  {
    hide Decimals.Print, PointText, Flatten, Nested;
    if geometry.None? {
      return Text("");
    }
    var nested := Nested(geometry.value);
    if nested.None? {
      return UnsupportedType;
    }
    NestedIsFlatten(geometry.value);
    var lines := nested.value;
    var texts: seq<string> := [];
    ghost var seen: seq<Coord> := [];
    for i := 0 to |lines|
      invariant texts == PointTexts(seen)
      invariant seen + Concat(lines[i..]) == Concat(lines)
    {
      ghost var before := seen;
      assert lines[i..][1..] == lines[i + 1..];
      for j := 0 to |lines[i]|
        invariant texts == PointTexts(seen)
        invariant seen == before + lines[i][..j]
      {
        PointTextsSnoc(seen, lines[i][j]);
        texts := texts + [PointText(lines[i][j])];
        seen := seen + [lines[i][j]];
      }
      assert seen == before + lines[i];
    }
    assert seen == Flatten(geometry.value);
    r := Text(Join(texts, ';'));
  }

  // ---- parsing ----

  function ParsePoint(piece: string): Option<Coord> {
    var parts := Words(Trim(piece));
    if |parts| < MIN_LAT_LON_PARTS then None
    else
      var lat := Decimals.Parse(parts[0]);
      var lon := Decimals.Parse(parts[1]);
      if lat.None? || lon.None? then None else Some(Coord(lon.value, lat.value))
  }

  /** The readable points among the pieces, in order. */
  function ParsePoints(pieces: seq<string>): seq<Coord> {
    if pieces == [] then []
    else
      var first := ParsePoint(pieces[0]);
      (if first.Some? then [first.value] else []) + ParsePoints(pieces[1..])
  }

  predicate Closed(cs: seq<Coord>) {
    |cs| > 0 && cs[0] == cs[|cs| - 1]
  }

  /** The linear-ring test of section 3.1.6 of RFC 7946. */
  predicate IsRing(cs: seq<Coord>) {
    Closed(cs) && |cs| >= MIN_POLYGON_POINTS
  }

  function Classify(cs: seq<Coord>): Option<Geometry> {
    if cs == [] then None
    else if |cs| == 1 then Some(Point(cs[0]))
    else if IsRing(cs) then Some(Polygon([cs]))
    else Some(LineString(cs))
  }

  function Parsing(s: string): Option<Geometry> {
    Classify(ParsePoints(Split(Trim(s), ';')))
  }

  lemma ParseStep(pieces: seq<string>, i: nat, done: seq<Coord>)
    requires i < |pieces|
    ensures done + ParsePoints(pieces[i..])
      == done + (if ParsePoint(pieces[i]).Some? then [ParsePoint(pieces[i]).value] else [])
           + ParsePoints(pieces[i + 1..])
  {
    hide ParsePoint;
    assert pieces[i..][1..] == pieces[i + 1..];
  }

  method JavarosaToGeojson(s: string) returns (r: Option<Geometry>)
    ensures r == Parsing(s)
  {
    hide ParsePoint, ParsePoints, Trim, Split;
    if s == "" {
      EmptyText();
      return None;
    }
    var pieces := Split(Trim(s), ';');
    var coordinates: seq<Coord> := [];
    assert pieces[0..] == pieces;
    for i := 0 to |pieces|
      invariant coordinates + ParsePoints(pieces[i..]) == ParsePoints(pieces)
    {
      ParseStep(pieces, i, coordinates);
      var c := ParsePoint(pieces[i]);
      if c.Some? {
        coordinates := coordinates + [c.value];
      } else {
        assert coordinates + [] == coordinates;
      }
    }
    EmptyText();
    assert pieces[|pieces|..] == [] && coordinates + [] == coordinates;
    if |coordinates| == 0 {
      r := None;
    } else if |coordinates| == 1 {
      r := Some(Point(coordinates[0]));
    } else if coordinates[0] == coordinates[|coordinates| - 1] && |coordinates| >= MIN_POLYGON_POINTS {
      r := Some(Polygon([coordinates]));
    } else {
      r := Some(LineString(coordinates));
    }
  }

  // ---- the round trip ----

  lemma PrintedIsWord(d: Num)
    ensures IsWord(Decimals.Print(d)) && ';' !in Decimals.Print(d)
  {
    hide Decimals.Print;
  }

  lemma PointTextShape(c: Coord)
    ensures PointText(c) != "" && ';' !in PointText(c)
    ensures !IsSpace(PointText(c)[0]) && PointText(c)[|PointText(c)| - 1] == '0'
  {
    hide Decimals.Print;
    PrintedIsWord(c.lat);
    PrintedIsWord(c.lon);
    var lat := Decimals.Print(c.lat);
    assert PointText(c)[0] == lat[0];
  }

  lemma TrimKeeps(s: string)
    requires s != "" && !IsSpace(s[0]) && !IsSpace(s[|s| - 1])
    ensures Trim(s) == s
  {
  }

  lemma ParsePointText(c: Coord)
    ensures ParsePoint(PointText(c)) == Some(c)
  {
    hide Decimals.Print, Decimals.Parse, Words, Trim;
    var lat, lon := Decimals.Print(c.lat), Decimals.Print(c.lon);
    PointTextShape(c);
    TrimKeeps(PointText(c));
    PrintedIsWord(c.lat);
    PrintedIsWord(c.lon);
    var rest := lon + " 0.0 0.0";
    FirstWord(lat, " " + rest);
    SkipWhite(" ", rest);
    FirstWord(lon, " 0.0 0.0");
    Decimals.ParsePrint(c.lat);
    Decimals.ParsePrint(c.lon);
    assert |Words(PointText(c))| >= 2;
  }

  lemma {:induction false} ParsePointTexts(cs: seq<Coord>)
    ensures ParsePoints(PointTexts(cs)) == cs
  {
    hide ParsePoint, PointText;
    if cs != [] {
      ParsePointText(cs[0]);
      ParsePointTexts(cs[1..]);
      assert PointTexts(cs)[1..] == PointTexts(cs[1..]);
    }
  }

  lemma {:induction false} JoinShape(cs: seq<Coord>)
    requires cs != []
    ensures var s := PrintCoords(cs); s != "" && !IsSpace(s[0]) && !IsSpace(s[|s| - 1])
  {
    hide PointText;
    PointTextShape(cs[0]);
    if |cs| > 1 {
      JoinShape(cs[1..]);
      assert PointTexts(cs)[1..] == PointTexts(cs[1..]);
    }
  }

  /** Printing coordinates and parsing the text reads the same coordinates. */
  lemma ParsePrintCoords(cs: seq<Coord>)
    ensures Parsing(PrintCoords(cs)) == Classify(cs)
  {
    hide Classify, Trim, PointText, ParsePoint;
    if cs == [] {
      EmptyText();
    } else {
      JoinShape(cs);
      TrimKeeps(PrintCoords(cs));
      forall i | 0 <= i < |cs| ensures ';' !in PointTexts(cs)[i] {
        PointTextShape(cs[i]);
      }
      SplitJoin(PointTexts(cs), ';');
      ParsePointTexts(cs);
    }
  }

  lemma EmptyText()
    ensures Parsing("") == None && Classify([]) == None && ParsePoints([]) == []
  {
    assert ParsePoints([""]) == [];
  }

  /** The geometries the parser can return. */
  predicate Readable(g: Geometry) {
    match g
    case Point(_) => true
    case LineString(line) => |line| >= 2 && !(line[0] == line[|line| - 1] && |line| >= 4)
    case Polygon(rings) => |rings| == 1 && |rings[0]| >= 4 && rings[0][0] == rings[0][|rings[0]| - 1]
    case _ => false
  }

  /** What reading back a printed geometry gives: its coordinates, classified. */
  lemma ReprintKeepsCoordinates(g: Geometry)
    requires !g.Collection?
    ensures Printing(Some(g)).Text?
    ensures Parsing(Printing(Some(g)).text) == Classify(Flatten(g))
  {
    ParsePrintCoords(Flatten(g));
  }

  lemma ClassifyInverts(cs: seq<Coord>)
    requires cs != []
    ensures Classify(cs).Some? && Readable(Classify(cs).value) && Flatten(Classify(cs).value) == cs
  {
    ConcatOne(cs);
  }

  /** Round trip: exactly the points, the single closed rings of at least four
      points, and the open or short lines of at least two come back as they
      were. */
  lemma RoundTripIff(g: Geometry)
    requires !g.Collection?
    ensures Printing(Some(g)).Text?
    ensures Parsing(Printing(Some(g)).text) == Some(g) <==> Readable(g)
  {
    hide Parsing, PrintCoords;
    ReprintKeepsCoordinates(g);
    if Flatten(g) != [] {
      ClassifyInverts(Flatten(g));
    }
    if Readable(g) && g.Polygon? {
      ConcatOne(g.rings[0]);
      assert g.rings == [g.rings[0]];
    }
  }

  /** Whatever text was read, printing the result and reading it again gives
      the same geometry. */
  lemma ParsePrintParse(s: string)
    requires Parsing(s).Some?
    ensures var g := Parsing(s).value; Printing(Some(g)).Text? && Parsing(Printing(Some(g)).text) == Some(g)
  {
    hide Trim, Split, ParsePoints;
    ClassifyInverts(ParsePoints(Split(Trim(s), ';')));
    RoundTripIff(Parsing(s).value);
  }

  // ---- the texts themselves ----

  /** Every point is printed as its latitude, its longitude and two zeros, and
      the points stand between semicolons. */
  lemma PrintCoordsLaw(c: Coord, cs: seq<Coord>)
    ensures PrintCoords([]) == ""
    ensures PrintCoords([c]) == Decimals.Print(c.lat) + " " + Decimals.Print(c.lon) + " 0.0 0.0"
    ensures cs != [] ==> PrintCoords([c] + cs) == PrintCoords([c]) + ";" + PrintCoords(cs)
  {
    hide Decimals.Print;
    var lat, lon := Decimals.Print(c.lat), Decimals.Print(c.lon);
    assert lat + (" " + (lon + " 0.0 0.0")) == lat + " " + lon + " 0.0 0.0";
    if cs != [] {
      assert PointTexts([c] + cs)[1..] == PointTexts(cs);
      assert PrintCoords([c]) + ([';'] + PrintCoords(cs)) == PrintCoords([c]) + ";" + PrintCoords(cs);
    }
  }

  /** White space around the first two words, and anything after them. */
  ghost predicate Spaced(piece: string, pre: string, lat: string, gap: string, lon: string, rest: string) {
    && piece == pre + lat + gap + lon + rest && White(pre) && White(gap) && gap != ""
    && IsWord(lat) && IsWord(lon) && (rest == "" || rest[0] in " \t\n\r")
  }

  ghost predicate TwoWords(piece: string, lat: string, lon: string) {
    exists pre, gap, rest :: Spaced(piece, pre, lat, gap, lon, rest)
  }

  lemma WordsOf(lat: string, gap: string, lon: string, rest: string)
    requires IsWord(lat) && IsWord(lon) && White(gap) && gap != "" && (rest == "" || IsSpace(rest[0]))
    ensures Words(lat + gap + lon + rest) == [lat, lon] + Words(rest)
  {
    hide Words, WordEnd;
    assert gap[0] in " \t\n\r";
    assert lat + gap + lon + rest == lat + (gap + (lon + rest));
    FirstWord(lat, gap + (lon + rest));
    SkipWhite(gap, lon + rest);
    FirstWord(lon, rest);
    assert [lat] + ([lon] + Words(rest)) == [lat, lon] + Words(rest);
  }

  lemma NotWhite(text: string, i: nat, j: nat, k: nat)
    requires i <= j <= |text| && White(text[..i]) && White(text[j..]) && k < |text| && !IsSpace(text[k])
    ensures i <= k < j
  {
    forall m | 0 <= m < i
      ensures IsSpace(text[m])
    {
      assert text[..i][m] == text[m];
    }
    forall m | j <= m < |text|
      ensures IsSpace(text[m])
    {
      assert text[j..][m - j] == text[m];
    }
  }

  /** The two words survive the trimming. */
  lemma TrimTwoWords(piece: string, pre: string, lat: string, gap: string, lon: string, rest: string) returns (k: nat)
    requires piece == pre + lat + gap + lon + rest && White(pre) && White(gap)
    requires IsWord(lat) && IsWord(lon)
    ensures k <= |rest| && Trim(piece) == lat + gap + lon + rest[..k]
  {
    hide Trim;
    var i, j := TrimParts(piece);
    var from, to := |pre|, |pre| + |lat| + |gap| + |lon|;
    assert piece[from] == lat[0] && piece[to - 1] == lon[|lon| - 1];
    NotWhite(piece, i, j, from);
    NotWhite(piece, i, j, to - 1);
    assert Trim(piece)[0] == piece[i] && piece[..from] == pre && White(piece[|piece|..]);
    NotWhite(piece, from, |piece|, i);
    k := j - to;
    assert piece[from..j] == lat + gap + lon + rest[..k];
  }

  lemma TwoWordsParse(piece: string, lat: string, lon: string)
    requires TwoWords(piece, lat, lon)
    ensures var y, x := Decimals.Parse(lat), Decimals.Parse(lon);
      ParsePoint(piece) == if y.Some? && x.Some? then Some(Coord(x.value, y.value)) else None
  {
    hide Words, Trim, Decimals.Parse;
    var pre, gap, rest :| Spaced(piece, pre, lat, gap, lon, rest);
    var k := TrimTwoWords(piece, pre, lat, gap, lon, rest);
    WordsOf(lat, gap, lon, rest[..k]);
  }

  lemma WordEndIs(s: string)
    ensures forall i :: 0 <= i < WordEnd(s) ==> !IsSpace(s[i])
    ensures WordEnd(s) < |s| ==> IsSpace(s[WordEnd(s)])
  {
  }

  /** The first word, with the white space before it. */
  lemma {:induction false} SplitWord(s: string) returns (pre: string, w: string, rest: string)
    ensures Words(s) != [] ==>
      && s == pre + w + rest && White(pre) && IsWord(w) && (rest == "" || rest[0] in " \t\n\r")
      && Words(s) == [w] + Words(rest)
    decreases |s|
  {
    hide White, IsWord, WordEnd;
    pre, w, rest := "", "", "";
    WhiteSpace(' ');
    if s != "" {
      if IsSpace(s[0]) {
        pre, w, rest := SplitWord(s[1..]);
        WhiteSpace(s[0]);
        WhiteConcat([s[0]], pre);
        assert s == [s[0]] + s[1..];
        assert [s[0]] + (pre + w + rest) == ([s[0]] + pre) + w + rest;
        pre := [s[0]] + pre;
      } else {
        w, rest := FirstRun(s);
      }
    }
  }

  lemma FirstRun(s: string) returns (w: string, rest: string)
    requires s != "" && !IsSpace(s[0])
    ensures s == "" + w + rest && IsWord(w) && (rest == "" || rest[0] in " \t\n\r")
    ensures Words(s) == [w] + Words(rest)
  {
    WordEndIs(s);
    w, rest := s[..WordEnd(s)], s[WordEnd(s)..];
    assert s == w + rest && "" + w == w;
  }

  lemma FoundTwoWords(s: string) returns (lat: string, lon: string)
    requires |Words(s)| >= 2
    ensures Words(s)[0] == lat && Words(s)[1] == lon && TwoWords(s, lat, lon)
  {
    hide Words, White;
    var pre, more;
    pre, lat, more := SplitWord(s);
    var gap, rest;
    gap, lon, rest := SplitWord(more);
    AreSpaced(s, pre, lat, more, gap, lon, rest);
  }

  lemma AreSpaced(s: string, pre: string, lat: string, more: string, gap: string, lon: string, rest: string)
    requires s == pre + lat + more && more == gap + lon + rest && White(pre) && White(gap) && IsWord(lat) && IsWord(lon)
    requires more[0] in " \t\n\r" && (rest == "" || rest[0] in " \t\n\r")
    ensures Spaced(s, pre, lat, gap, lon, rest)
  {
    hide White;
    assert more[|gap|] == lon[0];
    assert pre + lat + (gap + lon + rest) == pre + lat + gap + lon + rest;
  }

  lemma WhiteAround(u: string, s: string, v: string, lat: string, lon: string)
    requires White(u) && White(v) && TwoWords(s, lat, lon)
    ensures TwoWords(u + s + v, lat, lon)
  {
    hide Spaced;
    var pre, gap, rest :| Spaced(s, pre, lat, gap, lon, rest);
    MoreSpaced(u, s, v, pre, lat, gap, lon, rest);
  }

  lemma MoreSpaced(
      u: string, s: string, v: string, pre: string, lat: string, gap: string, lon: string, rest: string)
    requires White(u) && White(v) && Spaced(s, pre, lat, gap, lon, rest)
    ensures Spaced(u + s + v, u + pre, lat, gap, lon, rest + v)
  {
    WhiteConcat(u, pre);
    assert u + (pre + lat + gap + lon + rest) + v == (u + pre) + lat + gap + lon + (rest + v);
  }

  lemma PointHasWords(piece: string) returns (lat: string, lon: string)
    requires ParsePoint(piece).Some?
    ensures TwoWords(piece, lat, lon)
    ensures Decimals.Parse(lat) == Some(ParsePoint(piece).value.lat)
    ensures Decimals.Parse(lon) == Some(ParsePoint(piece).value.lon)
  {
    hide Words, Trim, Decimals.Parse, White;
    lat, lon := FoundTwoWords(Trim(piece));
    var i, j := TrimParts(piece);
    assert piece == piece[..i] + Trim(piece) + piece[j..];
    hide TwoWords;
    WhiteAround(piece[..i], Trim(piece), piece[j..], lat, lon);
  }

  /** A piece is a point exactly when its first two words are numbers, the
      latitude and the longitude. */
  lemma PointLaw(piece: string, c: Coord)
    ensures ParsePoint(piece) == Some(c) <==>
      exists lat, lon ::
        TwoWords(piece, lat, lon) && Decimals.Parse(lat) == Some(c.lat) && Decimals.Parse(lon) == Some(c.lon)
  {
    hide ParsePoint, TwoWords, Decimals.Parse;
    if lat, lon :| TwoWords(piece, lat, lon)
                   && Decimals.Parse(lat) == Some(c.lat) && Decimals.Parse(lon) == Some(c.lon) {
      TwoWordsParse(piece, lat, lon);
    }
    if ParsePoint(piece) == Some(c) {
      var lat, lon := PointHasWords(piece);
    }
  }

  /** The points read from a text, piece after piece. */
  ghost function PointsIn(s: string): seq<Coord> {
    ParsePoints(Split(s, ';'))
  }

  lemma FirstPiece(x: char, first: seq<string>, more: seq<string>)
    requires first != []
    ensures [""] + (first + more) == ([""] + first) + more
    ensures [[x] + (first + more)[0]] + (first + more)[1..] == ([[x] + first[0]] + first[1..]) + more
  {
  }

  lemma {:induction false} SplitConcat(a: string, c: char, b: string)
    ensures Split(a + ([c] + b), c) == Split(a, c) + Split(b, c)
  {
    var whole := a + ([c] + b);
    if a == "" {
      assert whole[1..] == b;
    } else {
      SplitConcat(a[1..], c, b);
      assert whole[1..] == a[1..] + ([c] + b);
      FirstPiece(a[0], Split(a[1..], c), Split(b, c));
    }
  }

  ghost function PointOf(piece: string): seq<Coord> {
    if ParsePoint(piece).Some? then [ParsePoint(piece).value] else []
  }

  lemma PointsStep(pieces: seq<string>)
    ensures pieces == [] ==> ParsePoints(pieces) == []
    ensures pieces != [] ==> ParsePoints(pieces) == PointOf(pieces[0]) + ParsePoints(pieces[1..])
  {
    hide ParsePoint;
  }

  lemma {:induction false} PointsConcat(a: seq<string>, b: seq<string>)
    ensures ParsePoints(a + b) == ParsePoints(a) + ParsePoints(b)
  {
    hide ParsePoints, PointOf;
    PointsStep(a);
    if a == [] {
      assert a + b == b;
    } else {
      PointsConcat(a[1..], b);
      assert (a + b)[0] == a[0] && (a + b)[1..] == a[1..] + b;
      PointsStep(a + b);
    }
  }

  /** A text is read piece after piece between the semicolons, and a piece that
      is no point is passed over. */
  lemma PiecesLaw(a: string, b: string)
    ensures PointsIn(a + ";" + b) == PointsIn(a) + PointsIn(b)
    ensures ';' !in a ==> PointsIn(a) == if ParsePoint(a).Some? then [ParsePoint(a).value] else []
  {
    hide ParsePoint, Split;
    assert a + ";" + b == a + ([';'] + b);
    SplitConcat(a, ';', b);
    PointsConcat(Split(a, ';'), Split(b, ';'));
    if ';' !in a { SplitPlain(a, ';'); }
  }

  /** One point is a point, four or more that end where they began are a
      polygon, and other points are a line. */
  lemma ParsingLaw(s: string) returns (i: nat, j: nat)
    ensures i <= j <= |s| && White(s[..i]) && White(s[j..])
    ensures var cs := PointsIn(s[i..j]);
      Parsing(s) ==
        if |cs| == 0 then None
        else if |cs| == 1 then Some(Point(cs[0]))
        else if |cs| >= 4 && cs[0] == cs[|cs| - 1] then Some(Polygon([cs]))
        else Some(LineString(cs))
  {
    hide Trim, ParsePoints, Split;
    i, j := TrimParts(s);
  }
}
