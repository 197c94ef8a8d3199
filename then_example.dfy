/** The staged web-page chain of examples/future_then/then.cpp: connect to
    the home page, log in, open the tag page, and list its pictures.  Each
    stage is a pure function of the previous stage's result; the jitter
    sleeps and the console output are not modelled. */
module ThenExample {
  import opened Wrappers

  /** A pixiv picture id (`size_t`). */
  type Pid = nat

  /** A web page is its URL. */
  datatype Webpage = Webpage(url: string)

  /** The user a chain runs for. */
  datatype UserInfo = UserInfo(username: string, password: string, tag: string)

  const JOJO: UserInfo := UserInfo("jojo", "I LOVE DIO", "NTR")
  const DIO: UserInfo := UserInfo("dio", "I LOVE JOJO", "R18")

  const HOME_PAGE: string := "https://www.pixiv.net"
  const UNAUTHORIZED: string := "401 ERROR: Unauthorized"

  /** The static gallery: tag to picture ids. */
  const GALLERY: map<string, seq<Pid>> := map[
    "R18" := [74841722, 80315612, 76611510],
    "NTR" := [82818137, 76595171, 96615810, 96812601, 87746247]
  ]

  /** `Webpage::login`, written as the source branches: a known user is
      checked against that user's password, anybody else is refused. */
  function Login(username: string, password: string): bool
  {
    if username == "jojo" then password == "I LOVE DIO"
    else if username == "dio" then password == "I LOVE JOJO"
    else false
  }

  /** `login` accepts exactly the two registered credential pairs. */
  lemma LoginAccepts(username: string, password: string)
    ensures Login(username, password) <==>
      (username, password) in {("jojo", "I LOVE DIO"), ("dio", "I LOVE JOJO")}
  {
    if username == "jojo" {
      assert username != "dio";
    }
  }

  /** `search_by_tag`: `operator[]` on the static map, so a tag it does not
      know is inserted with an empty list.  Returns the ids and the map
      after the lookup. */
  function SearchByTag(gallery: map<string, seq<Pid>>, tag: string): (r: (seq<Pid>, map<string, seq<Pid>>))
    ensures tag in r.1 && r.0 == r.1[tag]
    ensures tag in gallery ==> r.1 == gallery
    ensures tag !in gallery ==> r.0 == [] && r.1.Keys == gallery.Keys + {tag}
    ensures forall k :: k in gallery ==> k in r.1 && r.1[k] == gallery[k]
  {
    if tag in gallery then (gallery[tag], gallery) else ([], gallery[tag := []])
  }

  /** A second lookup of the same tag returns the same ids and leaves the
      map as the first one left it. */
  lemma SearchTwice(gallery: map<string, seq<Pid>>, tag: string)
    ensures var (ids, g) := SearchByTag(gallery, tag);
      SearchByTag(g, tag) == (ids, g)
  {
  }

  /** The gallery answers three ids for "R18", five for "NTR", and none
      for any other tag. */
  lemma GalleryLookups(tag: string)
    ensures |SearchByTag(GALLERY, "R18").0| == 3
    ensures |SearchByTag(GALLERY, "NTR").0| == 5
    ensures tag != "R18" && tag != "NTR" ==> SearchByTag(GALLERY, tag).0 == []
  {
  }

  /** First stage: connect to the home page. */
  function Connect(user: UserInfo): (page: Webpage)
    ensures page.url == HOME_PAGE
  {
    Webpage(HOME_PAGE)
  }

  /** Second stage: the tag page below the current one when the login
      succeeds, nothing otherwise. */
  function OpenTagPage(user: UserInfo, page: Webpage): (r: Option<Webpage>)
    ensures r.Some? <==> Login(user.username, user.password)
    ensures r.Some? ==> r.value.url == page.url + "/tag/" + user.tag
  {
    if Login(user.username, user.password) then Some(Webpage(page.url + "/tag/" + user.tag))
    else None
  }

  /** Third stage: an empty page is thrown as unauthorized; otherwise the
      pictures of the user's tag are searched (and the gallery may gain an
      entry). */
  function ListPictures(user: UserInfo, tagPage: Option<Webpage>, gallery: map<string, seq<Pid>>)
    : (r: Result<(seq<Pid>, map<string, seq<Pid>>)>)
    ensures r.Throw? <==> tagPage.None?
    ensures r.Throw? ==> r.message == UNAUTHORIZED
    ensures r.Ok? ==> r.value == SearchByTag(gallery, user.tag)
  {
    if tagPage.None? then Throw(UNAUTHORIZED) else Ok(SearchByTag(gallery, user.tag))
  }

  /** The whole chain for one user; the fourth stage only prints the ids
      and returns `nullptr`, so the chain's result is the list it prints. */
  function Chain(user: UserInfo, gallery: map<string, seq<Pid>>): Result<(seq<Pid>, map<string, seq<Pid>>)>
  {
    ListPictures(user, OpenTagPage(user, Connect(user)), gallery)
  }

  /** The chain lists the user's tag exactly when the login succeeds, and
      stops with the unauthorized error otherwise. */
  lemma ChainOutcome(user: UserInfo, gallery: map<string, seq<Pid>>)
    ensures Chain(user, gallery).Ok? <==> Login(user.username, user.password)
    ensures Chain(user, gallery).Ok? ==> Chain(user, gallery).value.0 == SearchByTag(gallery, user.tag).0
    ensures Chain(user, gallery).Throw? ==> Chain(user, gallery).message == UNAUTHORIZED
  {
  }

  /** The program's two users: jojo gets the five "NTR" pictures at
      https://www.pixiv.net/tag/NTR, dio the three "R18" ones, and the
      gallery is unchanged; the wrong password is refused. */
  lemma ProgramUsers()
    ensures OpenTagPage(JOJO, Connect(JOJO)) == Some(Webpage("https://www.pixiv.net/tag/NTR"))
    ensures Chain(JOJO, GALLERY) == Ok((GALLERY["NTR"], GALLERY))
    ensures Chain(DIO, GALLERY) == Ok((GALLERY["R18"], GALLERY))
    ensures Chain(JOJO.(password := "I LOVE JOJO"), GALLERY) == Throw(UNAUTHORIZED)
  {
    assert HOME_PAGE + "/tag/" + "NTR" == "https://www.pixiv.net/tag/NTR";
  }
}
