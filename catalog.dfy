/**
 * The catalog of recycling centers and the text search over it
 * (`filterByQuery` in app.js).
 */
module Catalog {
  import opened JsString

  /**
   * The `pin` field of a center as JSON gives it: missing (or null),
   * a string, or an integer.
   */
  datatype Pin = NoPin | PinText(text: string) | PinNumber(number: int)

  datatype LatLng = LatLng(lat: real, lng: real)

  datatype Center = Center(
    name: string,
    address: string,
    city: string,
    pin: Pin,
    lat: real,
    lng: real)
  {
    /** The point a marker for this center is placed at. */
    function Position(): LatLng
    {
      LatLng(lat, lng)
    }
  }

  /** JavaScript truthiness of the pin: a non-empty string or a non-zero number. */
  predicate PinTruthy(p: Pin)
    ensures PinTruthy(p) ==> PinString(p) != ""
  {
    match p
    case NoPin => false
    case PinText(t) => t != ""
    case PinNumber(n) => n != 0
  }

  /** `String(c.pin)`. */
  function PinString(p: Pin): (r: string)
    ensures p.PinText? ==> r == p.text
    ensures p.PinNumber? ==> |r| > 0 && (r[0] == '-' <==> p.number < 0)
    ensures p.PinNumber? ==> forall i :: 0 < i < |r| ==> '0' <= r[i] <= '9'
    ensures p.PinNumber? ==> r == IntToString(p.number)
  {
    match p
    case NoPin => ""
    case PinText(t) => t
    case PinNumber(n) => IntToString(n)
  }

  /** The query as the filter compares it: trimmed, then lower-cased. */
  function Normalize(query: string): (q: string)
    ensures forall i :: 0 <= i < |q| ==> !('A' <= q[i] <= 'Z')
    ensures var k := |query| - |TrimStart(query)|;
            && 0 <= k && k + |q| <= |query|
            && AllWhitespace(query[..k]) && Lower(query)[k..k + |q|] == q && AllWhitespace(query[k + |q|..])
    ensures q == [] || (!IsWhitespace(q[0]) && !IsWhitespace(q[|q| - 1]))
    ensures AllWhitespace(query) ==> q == []
  {
    LowerTrimIsSlice(query);
    LowerTrimEnds(query);
    Lower(Trim(query))
  }

  /**
   * The filter's test for one center against an already normalized query:
   * the lower-cased city, the lower-cased name, or (only when the pin is
   * truthy) the pin's text as it is, contains the query.
   */
  predicate Matches(c: Center, q: string)
    ensures Matches(c, q) <==>
      || Contains(Lower(c.city), q)
      || Contains(Lower(c.name), q)
      || (PinTruthy(c.pin) && Contains(PinString(c.pin), q))
  {
    var inCity := Includes(Lower(c.city), q);
    var inName := Includes(Lower(c.name), q);
    var inPin := PinTruthy(c.pin) && Includes(PinString(c.pin), q);
    inCity || inName || inPin
  }

  /** `a` is a subsequence of `b`: `a` is `b` with some elements left out. */
  predicate IsSubsequence<T(==)>(a: seq<T>, b: seq<T>)
    decreases |b|
  {
    || a == []
    || (b != [] && ((a[0] == b[0] && IsSubsequence(a[1..], b[1..])) || IsSubsequence(a, b[1..])))
  }

  /** `Array.prototype.filter` with the center test. */
  function Keep(cs: seq<Center>, q: string): (r: seq<Center>)
    ensures IsSubsequence(r, cs)
    ensures forall c :: c in r ==> Matches(c, q)
    decreases |cs|
  {
    if cs == [] then []
    else if Matches(cs[0], q) then
      var rest := Keep(cs[1..], q);
      assert ([cs[0]] + rest)[1..] == rest;
      [cs[0]] + rest
    else Keep(cs[1..], q)
  }

  /** `filterByQuery(query)` over the catalog `centers`. */
  function FilterByQuery(centers: seq<Center>, query: string): (r: seq<Center>)
    ensures IsSubsequence(r, centers)
    ensures forall c :: c in r ==> Matches(c, Normalize(query))
  {
    Keep(centers, Normalize(query))
  }

  // ---- Properties of the filter ----

  /**
   * The filter returns each matching center exactly as often as the catalog
   * holds it, and no other center. With the subsequence property this fixes
   * the result completely.
   */
  lemma {:induction false} KeepCounts(cs: seq<Center>, q: string, c: Center)
    ensures multiset(Keep(cs, q))[c] == if Matches(c, q) then multiset(cs)[c] else 0
    decreases |cs|
  {
    if cs != [] {
      KeepCounts(cs[1..], q, c);
      assert cs == [cs[0]] + cs[1..];
      assert multiset(cs) == multiset{cs[0]} + multiset(cs[1..]);
      if Matches(cs[0], q) {
        var rest := Keep(cs[1..], q);
        assert multiset([cs[0]] + rest) == multiset{cs[0]} + multiset(rest);
      }
    }
  }

  /**
   * The result of a search is the catalog with the non-matching centers
   * left out: it is a subsequence of the catalog (so catalog order is kept),
   * every center in it matches the normalized query, and every center of
   * the catalog that matches appears in it as often as in the catalog.
   */
  lemma FilterIsMatchingSubsequence(centers: seq<Center>, query: string)
    ensures IsSubsequence(FilterByQuery(centers, query), centers)
    ensures forall c :: c in FilterByQuery(centers, query) ==> c in centers && Matches(c, Normalize(query))
    ensures forall c :: multiset(FilterByQuery(centers, query))[c]
                        == if Matches(c, Normalize(query)) then multiset(centers)[c] else 0
  {
    var r := FilterByQuery(centers, query);
    forall c ensures multiset(r)[c] == if Matches(c, Normalize(query)) then multiset(centers)[c] else 0 {
      KeepCounts(centers, Normalize(query), c);
    }
    forall c | c in r ensures c in centers {
      assert multiset(r)[c] > 0;
    }
  }

  /** Every center matches the empty query, through its city. */
  lemma {:induction false} KeepEmptyQuery(cs: seq<Center>)
    ensures Keep(cs, "") == cs
    decreases |cs|
  {
    if cs != [] {
      IncludesEmpty(Lower(cs[0].city));
      KeepEmptyQuery(cs[1..]);
    }
  }

  /** An empty or whitespace-only query returns the whole catalog. */
  lemma BlankQueryReturnsAll(centers: seq<Center>, query: string)
    requires AllWhitespace(query)
    ensures FilterByQuery(centers, query) == centers
  {
    TrimOfWhitespace(query);
    KeepEmptyQuery(centers);
  }

  /**
   * Queries that agree once their ASCII letters are lower-cased, with any
   * whitespace added before or after them, select the same centers.
   */
  lemma FilterIgnoresCaseAndSurroundingSpace(
    centers: seq<Center>, q1: string, q2: string,
    before1: string, after1: string, before2: string, after2: string)
    requires Lower(q1) == Lower(q2)
    requires AllWhitespace(before1) && AllWhitespace(after1)
    requires AllWhitespace(before2) && AllWhitespace(after2)
    ensures FilterByQuery(centers, before1 + q1 + after1) == FilterByQuery(centers, before2 + q2 + after2)
  {
    TrimIgnoresSurroundingWhitespace(before1, q1, after1);
    TrimIgnoresSurroundingWhitespace(before2, q2, after2);
    TrimLowerCommute(q1);
    TrimLowerCommute(q2);
  }

  /** Upper-casing the query does not change the result. */
  lemma FilterIgnoresUpperCase(centers: seq<Center>, query: string)
    ensures FilterByQuery(centers, Upper(query)) == FilterByQuery(centers, query)
  {
    LowerOfUpper(query);
    TrimLowerCommute(Upper(query));
    TrimLowerCommute(query);
    assert Normalize(Upper(query)) == Normalize(query);
  }

  /** "Delhi" and "delhi" select the same centers of any catalog. */
  lemma DelhiExample(centers: seq<Center>)
    ensures FilterByQuery(centers, "Delhi") == FilterByQuery(centers, "delhi")
  {
    assert Normalize("Delhi") == Normalize("delhi") by {
      assert Lower("Delhi") == Lower("delhi");
      TrimLowerCommute("Delhi");
      TrimLowerCommute("delhi");
    }
  }

  /** A center whose pin is falsy matches only through its city or its name. */
  lemma FalsyPinIgnored(c: Center, q: string)
    requires !PinTruthy(c.pin)
    ensures Matches(c, q) <==> Includes(Lower(c.city), q) || Includes(Lower(c.name), q)
  {
  }

  /**
   * The pin's text is compared as it is, while the query has been
   * lower-cased: a pin containing an upper-case letter does not match a
   * query that repeats it verbatim.
   */
  lemma PinComparedWithoutLowering()
    ensures var c := Center("Hub", "1 Road", "Pune", PinText("AB12"), 0.0, 0.0);
            Includes(PinString(c.pin), "AB12") && FilterByQuery([c], "AB12") == []
  {
  }

  /** `String(411001)` is "411001". */
  lemma SixDigitPinText()
    ensures IntToString(411001) == "411001"
  {
  }

  lemma PaddedQueryNormalizes()
    ensures Normalize(" 4110 ") == "4110"
  {
    assert TrimStart(" 4110 ") == "4110 ";
    assert TrimEnd("4110 ") == "4110";
    assert Lower("4110") == "4110";
  }

  /** A numeric pin is compared through its decimal text. */
  lemma NumericPinMatches()
    ensures var c := Center("Hub", "1 Road", "Pune", PinNumber(411001), 0.0, 0.0);
            FilterByQuery([c], " 4110 ") == [c]
  {
    var c := Center("Hub", "1 Road", "Pune", PinNumber(411001), 0.0, 0.0);
    PaddedQueryNormalizes();
    SixDigitPinText();
    assert OccursAt("411001", "4110", 0);
    assert Matches(c, "4110");
    assert Keep([c], "4110") == [c] + Keep([], "4110");
  }
}
