/** `getUserId`: the participant identifier the page keeps in its `userId` cookie. The cookie is
    searched for the pattern `userId=([^;]+)`: the first place where `userId=` is followed by at
    least one character other than `;`, with no anchoring to the start of a cookie pair. */
module Cookie {
  import opened Protocol

  const Key: string := "userId="

  /** The pattern matches at position `i`: `userId=` there, then a character other than `;`. */
  predicate MatchesAt(cookie: string, i: nat)
  {
    i + |Key| < |cookie| && cookie[i..i + |Key|] == Key && cookie[i + |Key|] != ';'
  }

  /** `v` is what the capture group takes from position `j`: one or more characters other than
      `;`, running up to the next `;` or the end of the string. */
  ghost predicate CapturedAt(cookie: string, j: nat, v: string)
  {
    v != [] && ';' !in v && j + |v| <= |cookie| && cookie[j..j + |v|] == v
    && (j + |v| == |cookie| || cookie[j + |v|] == ';')
  }

  /** The characters from `j` up to the next `;` or the end of the string. */
  function RunFrom(cookie: string, j: nat): (r: string)
    requires j <= |cookie|
    ensures ';' !in r && j + |r| <= |cookie| && cookie[j..j + |r|] == r
    ensures j + |r| == |cookie| || cookie[j + |r|] == ';'
    decreases |cookie| - j
  {
    if j == |cookie| || cookie[j] == ';' then "" else [cookie[j]] + RunFrom(cookie, j + 1)
  }

  /** The first position at or after `i` where the pattern matches. */
  function FirstMatch(cookie: string, i: nat): (r: Option<nat>)
    requires i <= |cookie|
    ensures r.Some? ==> i <= r.value && MatchesAt(cookie, r.value)
    ensures r.Some? ==> forall k: nat :: i <= k < r.value ==> !MatchesAt(cookie, k)
    ensures r.None? ==> forall k: nat :: i <= k ==> !MatchesAt(cookie, k)
    decreases |cookie| - i
  {
    if i == |cookie| then None
    else if MatchesAt(cookie, i) then Some(i)
    else FirstMatch(cookie, i + 1)
  }

  /** `match[1]` of `cookie.match(/userId=([^;]+)/)`, or `None` when nothing matches. */
  function StoredUserId(cookie: string): (r: Option<string>)
    ensures r.None? <==> forall k: nat :: !MatchesAt(cookie, k)
    ensures r.Some? ==> exists k: nat ::
      && MatchesAt(cookie, k)
      && (forall j: nat :: j < k ==> !MatchesAt(cookie, j))
      && CapturedAt(cookie, k + |Key|, r.value)
  {
    match FirstMatch(cookie, 0)
    case None => None
    case Some(k) =>
      var v := RunFrom(cookie, k + |Key|);
      assert v != [] by { assert v == [cookie[k + |Key|]] + RunFrom(cookie, k + |Key| + 1); }
      assert CapturedAt(cookie, k + |Key|, v);
      Some(v)
  }

  /** The cookie the page writes for a new identifier. */
  function NewCookie(id: UserId): string
  {
    Key + id + "; path=/; max-age=86400"
  }

  /** The identifier `getUserId` returns, and the cookie string it writes, if any. */
  datatype Lookup = Lookup(userId: UserId, written: Option<string>)

  /** `getUserId`, with `crypto.randomUUID()` passed in as `freshId`: the stored identifier if the
      cookie holds one, otherwise `freshId`, which it also records in the cookie. */
  function GetUserId(cookie: string, freshId: UserId): (r: Lookup)
    ensures r.written.None? <==> StoredUserId(cookie).Some?
    ensures StoredUserId(cookie).Some? ==> r == Lookup(StoredUserId(cookie).value, None)
    ensures r.written.None? ==> r.userId != "" && ';' !in r.userId
    ensures r.written.Some? ==> r.userId == freshId && r.written.value == NewCookie(freshId)
  {
    match StoredUserId(cookie)
    case Some(v) => Lookup(v, None)
    case None => Lookup(freshId, Some(NewCookie(freshId)))
  }

  /** Whatever the capture group can take from `j` is what `RunFrom` takes. */
  lemma {:induction false} RunFromUnique(cookie: string, j: nat, v: string)
    requires ';' !in v && j + |v| <= |cookie| && cookie[j..j + |v|] == v
    requires j + |v| == |cookie| || cookie[j + |v|] == ';'
    ensures RunFrom(cookie, j) == v
    decreases |v|
  {
    if v != [] {
      assert cookie[j] == v[0];
      assert cookie[j + 1..j + |v|] == v[1..];
      RunFromUnique(cookie, j + 1, v[1..]);
      assert v == [v[0]] + v[1..];
    }
  }

  /** Reading back what was written: a cookie string that begins with `userId=v` and continues
      with nothing or with `;` (so also the written `NewCookie(v)` itself) yields `v`, provided `v`
      is non-empty and has no `;`, as a UUID is. */
  lemma ReadBack(v: UserId, rest: string)
    requires v != "" && ';' !in v
    requires rest == "" || rest[0] == ';'
    ensures StoredUserId(Key + v + rest) == Some(v)
  {
    var c := Key + v + rest;
    assert c[..|Key|] == Key;
    assert c[|Key|] == v[0];
    assert MatchesAt(c, 0);
    assert c[|Key|..|Key| + |v|] == v;
    RunFromUnique(c, |Key|, v);
  }

  /** A page that reads the cookie while it is still set (a second tab, or a load before the
      first page was unloaded) finds the identifier the first one recorded, and writes nothing.
      `document.cookie` reports only the pair `userId=<id>` of what `NewCookie` assigned, not its
      attributes. */
  lemma RecordedIdentifierPersists(freshId: UserId, other: UserId)
    requires freshId != "" && ';' !in freshId
    ensures GetUserId(Key + freshId, other) == Lookup(freshId, None)
  {
    ReadBack(freshId, "");
    assert Key + freshId + "" == Key + freshId;
  }

  /** Once the `beforeunload` handler has cleared the cookie, the browser reports either no
      `userId` pair (the empty cookie) or the pair with an empty value; either way the next load
      draws and records a fresh identifier, so a reload in the same tab does not keep the old one. */
  lemma ClearedCookieDrawsFresh(freshId: UserId)
    ensures GetUserId("", freshId) == Lookup(freshId, Some(NewCookie(freshId)))
    ensures GetUserId(Key, freshId) == Lookup(freshId, Some(NewCookie(freshId)))
  {
    assert !MatchesAt(Key, 0);
    assert FirstMatch(Key, 0) == None;
  }

  /** The match is not anchored: a key that merely ends in `userId` is taken too. */
  lemma UnanchoredMatch()
    ensures StoredUserId("myuserId=7") == Some("7")
  {
    var c := "myuserId=7";
    assert c[0..|Key|][0] != Key[0];
    assert c[1..1 + |Key|][0] != Key[0];
    assert c[2..2 + |Key|] == Key;
    assert FirstMatch(c, 2) == Some(2);
    assert FirstMatch(c, 0) == Some(2);
    assert c[9..10] == "7";
    RunFromUnique(c, 9, "7");
  }
}
