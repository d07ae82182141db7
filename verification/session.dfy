/** The page's search state and the two handlers that change it
    (src/app/page.tsx, lines 78-135): `handleSearch`, which applies a fetch
    outcome and picks the centre photo, and `handleImageSelect`, which turns
    a clicked photo into a new query. The network fetch is an input. */
module Session {
  import opened Wrappers
  import Query

  /** A search result: only the id and the description matter here; every
      other field only feeds rendering. */
  datatype Photo = Photo(id: string, altDescription: Option<string>)

  /** What the fetch collaborator delivered: a photo list, or a thrown error. */
  datatype Fetch = Fetched(photos: seq<Photo>) | FetchFailed

  /** The page's React state: `loading`, `images`, `centerImageId` and
      `searchQuery`. */
  datatype State = State(loading: bool, images: seq<Photo>, centerId: Option<string>, query: string)

  /** The state before the first fetch resolves. */
  const Initial: State := State(true, [], None, Query.DefaultQuery)

  predicate HasId(photos: seq<Photo>, id: string)
  {
    exists k :: 0 <= k < |photos| && photos[k].id == id
  }

  /** The centre id names one of the photos on the page, or there is none. */
  predicate CenterShown(s: State)
  {
    s.centerId.None? || HasId(s.images, s.centerId.value)
  }

  /** The centre survives a fetch when it is set (a JavaScript-truthy, so
      non-empty, id) and some returned photo carries it. */
  predicate KeepsCenter(prior: Option<string>, photos: seq<Photo>)
  {
    prior.Some? && prior.value != "" && HasId(photos, prior.value)
  }

  /** The state while the fetch is in flight. */
  function Pending(s: State): (p: State)
    ensures p.loading
    ensures p.images == s.images && p.centerId == s.centerId && p.query == s.query
  {
    s.(loading := true)
  }

  /** What `handleSearch` does once the fetch settles. `prior` is the centre
      id the handler was created with; `s` is the state at that moment. When
      the prior centre is kept the handler leaves the centre state alone, so
      the result carries `s.centerId`. */
  function Resolve(s: State, prior: Option<string>, outcome: Fetch): (r: State)
    ensures !r.loading && r.query == s.query
    ensures outcome.FetchFailed? ==> r.images == [] && r.centerId.None?
    ensures outcome.Fetched? ==> r.images == outcome.photos
    ensures outcome.Fetched? && |outcome.photos| == 0 ==> r.centerId.None?
    ensures outcome.Fetched? && |outcome.photos| > 0 && !KeepsCenter(prior, outcome.photos) ==>
      r.centerId == Some(outcome.photos[0].id)
    ensures outcome.Fetched? && KeepsCenter(prior, outcome.photos) ==> r.centerId == s.centerId
  {
    match outcome
    case FetchFailed => s.(images := [], centerId := None, loading := false)
    case Fetched(photos) =>
      var center :=
        if |photos| > 0 then
          (if prior.None? || prior.value == "" || !HasId(photos, prior.value) then Some(photos[0].id)
           else s.centerId)
        else None;
      s.(images := photos, centerId := center, loading := false)
  }

  /** `handleSearch(query)` for a typed query or the mount-time fetch: the
      handler's captured centre is the current one. The query text itself only
      reaches the fetch, whose outcome is the input here. */
  function HandleSearch(s: State, outcome: Fetch): (r: State)
    ensures !r.loading && r.query == s.query
    ensures CenterShown(r)
    ensures outcome.FetchFailed? ==> r.images == [] && r.centerId.None?
    ensures outcome.Fetched? ==> r.images == outcome.photos
    ensures outcome.Fetched? && |outcome.photos| > 0 ==> r.centerId.Some?
  {
    Resolve(Pending(s), s.centerId, outcome)
  }

  /** The state right after the click, before the fetch resolves: the clicked
      photo is the centre and the query is derived from its description. */
  function Clicked(s: State, selected: Photo): (c: State)
    ensures c.centerId == Some(selected.id)
    ensures c.query == Query.DeriveQuery(selected.altDescription) && c.query != ""
    ensures c.loading && c.images == s.images
  {
    Pending(s.(centerId := Some(selected.id), query := Query.DeriveQuery(selected.altDescription)))
  }

  /** `handleImageSelect` as written: the `handleSearch` it calls was created
      before the click, so it tests the pre-click centre against the results,
      while the state it leaves alone already holds the clicked id. */
  function SelectAsWritten(s: State, selected: Photo, outcome: Fetch): (r: State)
    ensures !r.loading && r.query == Query.DeriveQuery(selected.altDescription)
    ensures outcome.Fetched? && KeepsCenter(s.centerId, outcome.photos) ==> r.centerId == Some(selected.id)
    ensures outcome.Fetched? && |outcome.photos| > 0 && !KeepsCenter(s.centerId, outcome.photos) ==>
      r.centerId == Some(outcome.photos[0].id)
  {
    Resolve(Clicked(s, selected), s.centerId, outcome)
  }

  /** `handleImageSelect` as evidently intended: the centre test uses the
      clicked photo, which is the centre once the click is handled. */
  function Select(s: State, selected: Photo, outcome: Fetch): (r: State)
    ensures !r.loading && r.query == Query.DeriveQuery(selected.altDescription)
    ensures CenterShown(r)
    ensures outcome.Fetched? && selected.id != "" && HasId(outcome.photos, selected.id) ==>
      r.centerId == Some(selected.id)
  {
    HandleSearch(Clicked(s, selected), outcome)
  }

  /** A fetch that keeps the centre changes nothing about it; any other
      non-empty fetch centres its first photo. */
  lemma SearchKeepsPresentCenter(s: State, photos: seq<Photo>, k: nat)
    requires k < |photos| && s.centerId == Some(photos[k].id) && photos[k].id != ""
    ensures HandleSearch(s, Fetched(photos)).centerId == s.centerId
  {
  }

  /** The first fetch after mounting centres the first photo it returns. */
  lemma MountCentersFirstPhoto(photos: seq<Photo>)
    requires |photos| > 0
    ensures HandleSearch(Initial, Fetched(photos)).centerId == Some(photos[0].id)
    ensures HandleSearch(Initial, Fetched(photos)).query == Query.DefaultQuery
  {
  }

  /** Every state reachable from the initial one through searches and
      (corrected) selections has its centre among its images. */
  lemma CenterShownPreserved(s: State, selected: Photo, outcome: Fetch)
    ensures CenterShown(HandleSearch(s, outcome))
    ensures CenterShown(Select(s, selected, outcome))
  {
  }

  /** As written, a click can leave the page centred on a photo it does not
      show: the old centre "a" comes back in the results for the clicked
      photo's query, so the handler keeps the centre state, which by then is
      the clicked id "b" that the results lack. */
  lemma SelectAsWrittenLosesCenter()
    ensures
      var a := Photo("a", None);
      var b := Photo("b", None);
      var s := State(false, [a, b], Some("a"), Query.DefaultQuery);
      var r := SelectAsWritten(s, b, Fetched([Photo("x", None), a]));
      && r.centerId == Some("b")
      && r.images == [Photo("x", None), a]
      && !CenterShown(r)
  {
    var a := Photo("a", None);
    var results := [Photo("x", None), a];
    assert results[1].id == "a";
    assert HasId(results, "a");
    assert results[0].id != "b" && results[1].id != "b";
  }

  /** As written, a click can also move the centre off the clicked photo
      although the results contain it: the old centre "a" is missing from
      the results for the clicked photo's query, so the handler centres the
      first result "x" instead of "b". */
  lemma SelectAsWrittenDropsClicked()
    ensures
      var a := Photo("a", None);
      var b := Photo("b", None);
      var s := State(false, [a, b], Some("a"), Query.DefaultQuery);
      var results := [Photo("x", None), b];
      var r := SelectAsWritten(s, b, Fetched(results));
      && HasId(results, "b")
      && r.centerId == Some("x")
  {
    var b := Photo("b", None);
    var results := [Photo("x", None), b];
    assert results[1].id == "b";
    assert results[0].id != "a" && results[1].id != "a";
  }
}
