/**
 * The locator page's state and its handlers: loading the catalog, the
 * marker refresh on the map, the results panel, the session gate, the
 * recycle-request form and the folder export.
 *
 * The map is the set of layers it currently shows; the results panel is a
 * sequence of entries; local storage holds folders directly (not their
 * JSON text); navigation to another page is recorded in `location`.
 */
module App {
  import opened Wrappers
  import opened Catalog
  import opened Folder

  const NoResultsMessage := "No centers found in your area."
  const LoginPage := "./pages/login.html"

  /** A map marker; markers are told apart by identity, as Leaflet layers are. */
  class Marker {
    const at: LatLng

    constructor (at: LatLng)
      ensures this.at == at
    {
      this.at := at;
    }
  }

  /** One entry of the results panel. */
  datatype Entry = Notice(text: string) | ResultItem(center: Center)

  /** What the results panel shows for a list of centers. */
  function Panel(list: seq<Center>): (p: seq<Entry>)
    ensures |p| == if list == [] then 1 else |list|
    ensures forall i :: 0 <= i < |p| ==> (p[i].Notice? <==> list == [])
    ensures list == [] ==> p[0].text == NoResultsMessage
    ensures forall i :: 0 <= i < |list| ==> p[i].center == list[i]
  {
    if list == [] then [Notice(NoResultsMessage)]
    else seq(|list|, i requires 0 <= i < |list| => ResultItem(list[i]))
  }

  /** The coordinates of the listed centers, in list order. */
  function Positions(list: seq<Center>): (ps: seq<LatLng>)
  {
    seq(|list|, i requires 0 <= i < |list| => list[i].Position())
  }

  /** The session gate: `sessionStorage.getItem('loggedIn') === 'true'`. */
  predicate LoggedIn(session: map<string, string>)
    ensures LoggedIn(session) <==> GetItem(session, "loggedIn") == Some("true")
  {
    "loggedIn" in session && session["loggedIn"] == "true"
  }

  /** `sessionStorage.getItem(key)`: null exactly when the key is absent. */
  function GetItem(session: map<string, string>, key: string): (v: Option<string>)
    ensures v.None? <==> key !in session
    ensures v.Some? ==> v.value == session[key]
  {
    if key in session then Some(session[key]) else None
  }

  /** `sessionStorage.getItem('currentUserEmail')`. */
  function SessionEmail(session: map<string, string>): Option<string>
  {
    GetItem(session, "currentUserEmail")
  }

  class Locator {
    var centers: seq<Center>
    var markers: seq<Marker>
    var mapLayers: set<Marker>
    var fits: seq<seq<LatLng>>            // every `fitBounds` call, oldest first
    var results: seq<Entry>
    var session: map<string, string>
    var storage: Storage
    var location: Option<string>          // the page navigated to, if any

    /** The map shows exactly the held markers, each held once. */
    ghost predicate Valid()
      reads this
    {
      && mapLayers == (set m | m in markers)
      && forall i, j :: 0 <= i < j < |markers| ==> markers[i] != markers[j]
    }

    /** The held markers stand, one for one and in order, at the listed centers. */
    ghost predicate MarkersShow(list: seq<Center>)
      reads this
    {
      |markers| == |list| && forall i :: 0 <= i < |list| ==> markers[i].at == list[i].Position()
    }

    /** Panel and map agree: the no-results notice and no marker, or one marker per listed center. */
    ghost predicate InSync()
      reads this
    {
      || (results == [Notice(NoResultsMessage)] && markers == [])
      || (&& |results| == |markers| > 0
          && forall i :: 0 <= i < |results| ==> results[i].ResultItem? && markers[i].at == results[i].center.Position())
    }

    constructor (session: map<string, string>, storage: Storage)
      ensures Valid()
      ensures this.session == session && this.storage == storage
      ensures centers == [] && markers == [] && mapLayers == {} && fits == [] && results == [] && location == None
    {
      this.session := session;
      this.storage := storage;
      centers, markers, mapLayers, fits, results, location := [], [], {}, [], [], None;
    }

    /** `loadCenters`: the fetched catalog, or an empty one when the fetch or its parse fails. */
    method LoadCenters(fetched: Option<seq<Center>>)
      modifies this`centers
      ensures centers == match fetched { case Some(cs) => cs case None => [] }
    {
      match fetched {
        case Some(cs) => centers := cs;
        case None => centers := [];
      }
    }

    /**
     * `addMarkers(list)`: takes every held marker off the map, then puts a
     * fresh marker on it for each listed center and fits the view to their
     * coordinates; for an empty list the view is left alone.
     */
    method AddMarkers(list: seq<Center>)
      requires Valid()
      modifies this`markers, this`mapLayers, this`fits
      ensures Valid()
      ensures MarkersShow(list)
      ensures forall i :: 0 <= i < |markers| ==> fresh(markers[i])
      ensures forall m :: m in old(markers) ==> m !in mapLayers
      ensures fits == if list == [] then old(fits) else old(fits) + [Positions(list)]
    {
      var i := 0;
      while i < |markers|
        modifies this`mapLayers
        invariant 0 <= i <= |markers|
        invariant mapLayers <= old(mapLayers)
        invariant forall k :: 0 <= k < i ==> markers[k] !in mapLayers
        invariant forall k :: i <= k < |markers| ==> markers[k] in mapLayers
      {
        mapLayers := mapLayers - {markers[i]};
        i := i + 1;
      }
      assert mapLayers == {};
      ghost var held := markers;
      markers := [];
      if list == [] {
        return;
      }
      var group: seq<LatLng> := [];
      var j := 0;
      while j < |list|
        modifies this`mapLayers, this`markers
        invariant 0 <= j <= |list|
        invariant |markers| == |group| == j
        invariant forall k :: 0 <= k < j ==> fresh(markers[k]) && markers[k].at == list[k].Position()
        invariant forall k :: 0 <= k < j ==> group[k] == list[k].Position()
        invariant forall k, l :: 0 <= k < l < j ==> markers[k] != markers[l]
        invariant mapLayers == set m | m in markers
      {
        var m := new Marker(list[j].Position());
        mapLayers := mapLayers + {m};
        markers := markers + [m];
        group := group + [list[j].Position()];
        j := j + 1;
      }
      assert group == Positions(list);
      fits := fits + [group];
      assert forall m :: m in held ==> m !in mapLayers;
    }

    /** `initMap`: shows the whole catalog on the map. */
    method InitMap()
      requires Valid()
      modifies this`markers, this`mapLayers, this`fits
      ensures Valid() && MarkersShow(centers)
      ensures fits == if centers == [] then old(fits) else old(fits) + [Positions(centers)]
    {
      AddMarkers(centers);
    }

    /**
     * `renderResults(list)`: the panel becomes the no-results notice with
     * the map emptied, or one item per center in list order with a marker
     * for each.
     */
    method RenderResults(list: seq<Center>)
      requires Valid()
      modifies this`results, this`markers, this`mapLayers, this`fits
      ensures Valid() && InSync()
      ensures results == Panel(list)
      ensures MarkersShow(list)
      ensures forall m :: m in old(markers) ==> m !in mapLayers
      ensures fits == if list == [] then old(fits) else old(fits) + [Positions(list)]
    {
      results := [];
      if list == [] {
        results := [Notice(NoResultsMessage)];
        AddMarkers([]);
        return;
      }
      var i := 0;
      while i < |list|
        modifies this`results
        invariant 0 <= i <= |list|
        invariant |results| == i
        invariant forall k :: 0 <= k < i ==> results[k] == ResultItem(list[k])
      {
        results := results + [ResultItem(list[i])];
        i := i + 1;
      }
      assert results == Panel(list);
      AddMarkers(list);
    }

    /** `ensureLoggedIn`: passes when the session flag is set, otherwise sends the user to the login page. */
    method EnsureLoggedIn() returns (ok: bool)
      modifies this`location
      ensures ok == LoggedIn(session)
      ensures location == if ok then old(location) else Some(LoginPage)
    {
      if !LoggedIn(session) {
        location := Some(LoginPage);
        return false;
      }
      return true;
    }

    /** The search form: behind the gate, shows the centers matching the query. */
    method SubmitSearch(input: string)
      requires Valid()
      modifies this`location, this`results, this`markers, this`mapLayers, this`fits
      ensures Valid()
      ensures !LoggedIn(session) ==>
        && location == Some(LoginPage)
        && results == old(results) && markers == old(markers) && mapLayers == old(mapLayers) && fits == old(fits)
      ensures LoggedIn(session) ==>
        && location == old(location) && InSync()
        && results == Panel(FilterByQuery(centers, input))
        && MarkersShow(FilterByQuery(centers, input))
        && (forall m :: m in old(markers) ==> m !in mapLayers)
        && fits == (if FilterByQuery(centers, input) == [] then old(fits)
                    else old(fits) + [Positions(FilterByQuery(centers, input))])
    {
      var ok := EnsureLoggedIn();
      if !ok {
        return;
      }
      RenderResults(FilterByQuery(centers, input));
    }

    /**
     * The recycle form: behind the gate, appends one pickup record to the
     * signed-in user's folder and changes no other storage key. The
     * submission time and the parsed item count are passed in.
     */
    method SubmitRecycle(itemType: string, itemCount: int, address: string, date: string, now: string)
      modifies this`location, this`storage
      ensures !LoggedIn(session) ==> storage == old(storage) && location == Some(LoginPage)
      ensures LoggedIn(session) ==>
        && location == old(location)
        && storage == AppendToFolder(old(storage), FolderKey(SessionEmail(session)),
                                     PickupRecord(now, itemType, itemCount, address, date))
    {
      var ok := EnsureLoggedIn();
      if !ok {
        return;
      }
      var key := FolderKey(SessionEmail(session));
      var rec := PickupRecord(now, itemType, itemCount, address, date);
      var folder := StoredFolder(storage, key);
      folder := folder + [rec];
      storage := storage[key := folder];
    }

    /** The export button: behind the gate, the download for the signed-in user's folder. */
    method ExportMyFolder() returns (x: Option<Export>)
      modifies this`location
      ensures !LoggedIn(session) ==> x == None && location == Some(LoginPage)
      ensures LoggedIn(session) ==> x == Some(ExportFolder(SessionEmail(session), storage)) && location == old(location)
    {
      var ok := EnsureLoggedIn();
      if !ok {
        return None;
      }
      x := Some(ExportFolder(SessionEmail(session), storage));
    }
  }

  /**
   * A signed-in user who submits two requests and then exports gets a file
   * named after their email holding both records, in submission order, after
   * whatever the folder held before.
   */
  method SubmitTwiceThenExport(app: Locator, r1: PickupRecord, r2: PickupRecord) returns (x: Option<Export>)
    requires LoggedIn(app.session) && SessionEmail(app.session).Some?
    modifies app
    ensures var email := old(SessionEmail(app.session)).value;
            x == Some(Download(ExportFileName(email), StoredFolder(old(app.storage), FolderKey(Some(email))) + [r1, r2]))
  {
    var key := FolderKey(SessionEmail(app.session));
    app.SubmitRecycle(r1.itemType, r1.count, r1.address, r1.date, r1.id);
    app.SubmitRecycle(r2.itemType, r2.count, r2.address, r2.date, r2.id);
    assert StoredFolder(old(app.storage), key) + [r1] + [r2] == StoredFolder(old(app.storage), key) + [r1, r2];
    x := app.ExportMyFolder();
  }
}
