/**
 * The per-user folder of pickup requests kept in browser local storage,
 * and the name of the file the folder is exported to.
 */
module Folder {
  import opened Wrappers

  /** One pickup request as the recycle form records it. */
  datatype PickupRecord = PickupRecord(
    id: string,          // the submission time as an ISO-8601 string
    itemType: string,
    count: int,
    address: string,
    date: string)

  /** Local storage: each key holds the folder (a sequence of records) stored under it. */
  type Storage = map<string, seq<PickupRecord>>

  /**
   * The storage key of a user's folder, `folder:${email}`. A missing
   * session email (null) is written out as the text "null".
   */
  function FolderKey(email: Option<string>): (k: string)
    ensures |k| >= 7 && k[..7] == "folder:"
    ensures k[7..] == match email { case Some(e) => e case None => "null" }
  {
    "folder:" + match email { case Some(e) => e case None => "null" }
  }

  /** The folder stored under `key`, or the empty folder when the key is absent. */
  function StoredFolder(storage: Storage, key: string): (f: seq<PickupRecord>)
    ensures key !in storage ==> f == []
    ensures key in storage ==> f == storage[key]
  {
    if key in storage then storage[key] else []
  }

  /**
   * Read-modify-write of one folder: the record is appended to what is
   * stored under `key` (nothing, if the key is absent) and written back.
   */
  function AppendToFolder(storage: Storage, key: string, rec: PickupRecord): (s: Storage)
    ensures s.Keys == storage.Keys + {key}
    ensures StoredFolder(s, key) == StoredFolder(storage, key) + [rec]
    ensures forall k :: k != key ==> StoredFolder(s, k) == StoredFolder(storage, k)
  {
    storage[key := StoredFolder(storage, key) + [rec]]
  }

  /** The storage after appending `recs` one at a time, in order. */
  function AppendEach(storage: Storage, key: string, recs: seq<PickupRecord>): Storage
    decreases |recs|
  {
    if recs == [] then storage
    else AppendEach(AppendToFolder(storage, key, recs[0]), key, recs[1..])
  }

  /**
   * The folder only grows: after any series of appends it holds every
   * earlier record followed by the appended ones in append order, and the
   * other folders are untouched.
   */
  lemma {:induction false} AppendEachKeepsOrder(storage: Storage, key: string, recs: seq<PickupRecord>)
    ensures StoredFolder(AppendEach(storage, key, recs), key) == StoredFolder(storage, key) + recs
    ensures forall k :: k != key ==> StoredFolder(AppendEach(storage, key, recs), k) == StoredFolder(storage, k)
    decreases |recs|
  {
    if recs != [] {
      var next := AppendToFolder(storage, key, recs[0]);
      AppendEachKeepsOrder(next, key, recs[1..]);
      assert StoredFolder(storage, key) + [recs[0]] + recs[1..] == StoredFolder(storage, key) + recs;
    }
  }

  /** Distinct session emails have distinct folder keys. */
  lemma FolderKeysDistinct(a: string, b: string)
    requires a != b
    ensures FolderKey(Some(a)) != FolderKey(Some(b))
  {
    var p := "folder:";
    assert FolderKey(Some(a))[|p|..] == a;
    assert FolderKey(Some(b))[|p|..] == b;
  }

  /** A missing session email shares its folder with the user whose email is "null". */
  lemma MissingEmailSharesNullFolder()
    ensures FolderKey(None) == FolderKey(Some("null"))
  {
  }

  // ---- Export file name ----

  /** The characters `[a-z0-9]` matches under the `i` flag. */
  predicate IsAsciiAlnum(c: char)
  {
    ('a' <= c <= 'z') || ('A' <= c <= 'Z') || ('0' <= c <= '9')
  }

  /** The characters a sanitized email can contain. */
  predicate IsFileNameChar(c: char)
  {
    IsAsciiAlnum(c) || c == '_'
  }

  /** `email.replace(/[^a-z0-9]/gi, '_')`. */
  function Sanitize(email: string): (s: string)
    ensures |s| == |email|
    ensures forall i :: 0 <= i < |s| ==> if IsAsciiAlnum(email[i]) then s[i] == email[i] else s[i] == '_'
  {
    if email == [] then []
    else [if IsAsciiAlnum(email[0]) then email[0] else '_'] + Sanitize(email[1..])
  }

  /** The download name of the exported folder. */
  function ExportFileName(email: string): (n: string)
    ensures |n| == |email| + 19
    ensures n[..14] == "ewaste-folder-"
    ensures n[|n| - 5..] == ".json"
    ensures n[14..|n| - 5] == Sanitize(email)
  {
    "ewaste-folder-" + Sanitize(email) + ".json"
  }

  /** A sanitized email holds only ASCII letters, digits and underscores. */
  lemma SanitizeAlphabet(email: string)
    ensures forall i :: 0 <= i < |Sanitize(email)| ==> IsFileNameChar(Sanitize(email)[i])
  {
  }

  /** Sanitizing leaves a string alone exactly when it is already made of file-name characters. */
  lemma SanitizeFixedPoints(s: string)
    ensures Sanitize(s) == s <==> forall i :: 0 <= i < |s| ==> IsFileNameChar(s[i])
  {
  }

  /** Sanitizing twice is sanitizing once. */
  lemma SanitizeIdempotent(email: string)
    ensures Sanitize(Sanitize(email)) == Sanitize(email)
  {
  }

  lemma ExampleFileName()
    ensures ExportFileName("a.b@c.com") == "ewaste-folder-a_b_c_com.json"
  {
  }

  /**
   * Two users can get the same export file name although their folders are
   * kept apart.
   */
  lemma ExportNamesCollide()
    ensures FolderKey(Some("a.b@c.com")) != FolderKey(Some("a_b@c.com"))
    ensures ExportFileName("a.b@c.com") == ExportFileName("a_b@c.com")
  {
    FolderKeysDistinct("a.b@c.com", "a_b@c.com");
    assert Sanitize("a.b@c.com") == "a_b_c_com";
    assert Sanitize("a_b@c.com") == "a_b_c_com";
  }

  // ---- The export handler's result ----

  /** What the export handler produces once the session gate has passed. */
  datatype Export =
    | Download(fileName: string, contents: seq<PickupRecord>)
    | NullEmail   // `email.replace` on a missing session email throws a TypeError

  /** The download offered for the session email, from the stored folder. */
  function ExportFolder(email: Option<string>, storage: Storage): (x: Export)
    ensures email.None? <==> x == NullEmail
  {
    match email
    case None => NullEmail
    case Some(e) => Download(ExportFileName(e), StoredFolder(storage, FolderKey(email)))
  }

  /**
   * Exporting after a series of pickup requests gives every record the
   * folder held before, then the new ones in the order they were made.
   */
  lemma ExportAfterAppends(storage: Storage, email: string, recs: seq<PickupRecord>)
    ensures ExportFolder(Some(email), AppendEach(storage, FolderKey(Some(email)), recs))
            == Download(ExportFileName(email), StoredFolder(storage, FolderKey(Some(email))) + recs)
  {
    AppendEachKeepsOrder(storage, FolderKey(Some(email)), recs);
  }
}
