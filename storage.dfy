/** server/storage.ts: the in-memory store behind the server. Users and screenshots
    live in two maps keyed by id; each id is drawn from a counter that only grows.
    A JavaScript `Map` iterates in insertion order and `set` on a present key keeps
    the key's place, so each map is modelled together with the sequence of its keys
    in insertion order. */
module Storage {
  import opened Wrappers

  datatype User = User(id: int, username: string, password: string)
  datatype InsertUser = InsertUser(username: string, password: string)

  /** `settings` is a JSON column; its text is kept as an opaque string. */
  datatype Screenshot = Screenshot(
    id: int, userId: Option<int>, name: string, imageUrl: string, settings: string, createdAt: string)
  datatype InsertScreenshot = InsertScreenshot(
    userId: Option<int>, name: string, imageUrl: string, settings: string, createdAt: string)

  /** `Partial<InsertScreenshot>`: `None` for a key the patch does not carry. */
  datatype ScreenshotPatch = ScreenshotPatch(
    userId: Option<Option<int>>, name: Option<string>, imageUrl: Option<string>,
    settings: Option<string>, createdAt: Option<string>)

  // ---------------------------------------------------------------------------
  // Specification functions

  /** `{ ...existing, ...data }`. */
  function Patched(s: Screenshot, data: ScreenshotPatch): (r: Screenshot)
    ensures r.id == s.id
    ensures r.userId == if data.userId.Some? then data.userId.value else s.userId
    ensures r.name == if data.name.Some? then data.name.value else s.name
    ensures r.imageUrl == if data.imageUrl.Some? then data.imageUrl.value else s.imageUrl
    ensures r.settings == if data.settings.Some? then data.settings.value else s.settings
    ensures r.createdAt == if data.createdAt.Some? then data.createdAt.value else s.createdAt
  {
    Screenshot(
      s.id,
      if data.userId.Some? then data.userId.value else s.userId,
      if data.name.Some? then data.name.value else s.name,
      if data.imageUrl.Some? then data.imageUrl.value else s.imageUrl,
      if data.settings.Some? then data.settings.value else s.settings,
      if data.createdAt.Some? then data.createdAt.value else s.createdAt)
  }

  /** `Array.from(map.values())`: the values in the order of their keys. */
  function Values<V>(order: seq<int>, m: map<int, V>): (vs: seq<V>)
    requires forall k :: k in order ==> k in m
    ensures |vs| == |order|
    ensures forall i :: 0 <= i < |order| ==> order[i] in m && vs[i] == m[order[i]]
  {
    if order == [] then []
    else
      var last := order[|order| - 1];
      assert last in order;
      Values(order[..|order| - 1], m) + [m[last]]
  }

  /** The position of the first user with the name, if any: `find`'s choice. */
  function FirstNamed(us: seq<User>, username: string): (r: Option<nat>)
    ensures r.Some? ==> r.value < |us| && us[r.value].username == username
    ensures r.Some? ==> forall j :: 0 <= j < r.value ==> us[j].username != username
    ensures r.None? ==> forall j :: 0 <= j < |us| ==> us[j].username != username
  {
    if us == [] then None
    else if us[0].username == username then Some(0)
    else match FirstNamed(us[1..], username)
      case Some(k) => Some(k + 1)
      case None => None
  }

  /** `filter(s => s.userId === userId)`. A screenshot without an owner matches no id. */
  function OwnedBy(ss: seq<Screenshot>, userId: int): seq<Screenshot> {
    if ss == [] then []
    else OwnedBy(ss[..|ss| - 1], userId) + (if ss[|ss| - 1].userId == Some(userId) then [ss[|ss| - 1]] else [])
  }

  /** The key order after `delete(id)`: every other key keeps its place. */
  function Without(order: seq<int>, id: int): (r: seq<int>)
    ensures forall k :: k in r <==> k in order && k != id
  {
    if order == [] then []
    else Without(order[..|order| - 1], id) + (if order[|order| - 1] != id then [order[|order| - 1]] else [])
  }

  predicate StrictlyIncreasing(order: seq<int>) {
    forall i, j :: 0 <= i < j < |order| ==> order[i] < order[j]
  }

  /** A map with its insertion order: every key once, in the order ids were drawn,
      each below the counter, and each value carrying its own key as its id. */
  ghost predicate Indexed(order: seq<int>, keys: set<int>, counter: int) {
    && StrictlyIncreasing(order)
    && (forall k :: k in keys <==> k in order)
    && (forall k :: k in order ==> 1 <= k < counter)
    && counter >= 1
  }

  // ---------------------------------------------------------------------------
  // Properties of the specification functions

  /** The owner filter keeps exactly the screenshots of that owner. */
  lemma {:induction false} OwnedByMembers(ss: seq<Screenshot>, userId: int, s: Screenshot)
    ensures s in OwnedBy(ss, userId) <==> s in ss && s.userId == Some(userId)
    decreases |ss|
  {
    if ss != [] {
      OwnedByMembers(ss[..|ss| - 1], userId, s);
      assert ss == ss[..|ss| - 1] + [ss[|ss| - 1]];
    }
  }

  predicate AscendingIds(ss: seq<Screenshot>) {
    forall i, j :: 0 <= i < j < |ss| ==> ss[i].id < ss[j].id
  }

  /** Screenshots listed in key order come out of the filter with ascending ids. */
  lemma {:induction false} OwnedByAscending(ss: seq<Screenshot>, userId: int)
    requires AscendingIds(ss)
    ensures AscendingIds(OwnedBy(ss, userId))
    decreases |ss|
  {
    if ss != [] {
      var init, last := ss[..|ss| - 1], ss[|ss| - 1];
      OwnedByAscending(init, userId);
      var a, r := OwnedBy(init, userId), OwnedBy(ss, userId);
      forall i, j | 0 <= i < j < |r| ensures r[i].id < r[j].id {
        if j >= |a| {
          assert r[i] == a[i] && r[j] == last && a[i] in a;
          OwnedByMembers(init, userId, a[i]);
          var k :| 0 <= k < |init| && init[k] == a[i];
          assert init[k] == ss[k];
        } else {
          assert r[i] == a[i] && r[j] == a[j];
        }
      }
    }
  }

  /** A value is listed exactly when some key in the order maps to it. */
  lemma {:induction false} ValuesMembers<V>(order: seq<int>, m: map<int, V>, v: V)
    requires forall k :: k in order ==> k in m
    ensures v in Values(order, m) <==> exists k :: k in order && m[k] == v
    decreases |order|
  {
    if order != [] {
      var init, last := order[..|order| - 1], order[|order| - 1];
      ValuesMembers(init, m, v);
      assert order == init + [last];
      if v in Values(order, m) && v !in Values(init, m) {
        assert m[last] == v && last in order;
      }
    }
  }

  /** A screenshot is listed exactly when it is stored under its own id. */
  lemma ListedIff(order: seq<int>, m: map<int, Screenshot>, counter: int, s: Screenshot)
    requires Indexed(order, m.Keys, counter) && forall k :: k in m ==> m[k].id == k
    ensures s in Values(order, m) <==> s.id in m && m[s.id] == s
  {
    ValuesMembers(order, m, s);
    if s.id in m && m[s.id] == s {
      assert s.id in order;
    }
  }

  /** Over a whole store, the owner filter keeps exactly that owner's screenshots,
      in ascending id order. */
  lemma OwnedByStore(order: seq<int>, m: map<int, Screenshot>, counter: int, userId: int)
    requires Indexed(order, m.Keys, counter) && forall k :: k in m ==> m[k].id == k
    ensures forall s :: s in OwnedBy(Values(order, m), userId) <==> s.id in m && m[s.id] == s && s.userId == Some(userId)
    ensures AscendingIds(OwnedBy(Values(order, m), userId))
  {
    forall s ensures s in OwnedBy(Values(order, m), userId) <==> s.id in m && m[s.id] == s && s.userId == Some(userId) {
      OwnedByMembers(Values(order, m), userId, s);
      ListedIff(order, m, counter, s);
    }
    OwnedByAscending(Values(order, m), userId);
  }

  /** Removing a key keeps the order strictly increasing. */
  lemma {:induction false} WithoutIncreasing(order: seq<int>, id: int)
    requires StrictlyIncreasing(order)
    ensures StrictlyIncreasing(Without(order, id))
    decreases |order|
  {
    if order != [] {
      var init, last := order[..|order| - 1], order[|order| - 1];
      WithoutIncreasing(init, id);
      var a, r := Without(init, id), Without(order, id);
      forall i, j | 0 <= i < j < |r| ensures r[i] < r[j] {
        if j >= |a| {
          assert r[i] == a[i] && r[j] == last;
          assert a[i] in init;
          var k :| 0 <= k < |init| && init[k] == a[i];
        }
      }
    }
  }

  /** Appending a key larger than all others keeps the order strictly increasing. */
  lemma AppendIncreasing(order: seq<int>, id: int)
    requires StrictlyIncreasing(order) && forall k :: k in order ==> k < id
    ensures StrictlyIncreasing(order + [id])
  {
    var r := order + [id];
    forall i, j | 0 <= i < j < |r| ensures r[i] < r[j] {
      if j == |order| {
        assert r[i] == order[i] && order[i] in order;
      }
    }
  }

  /** A patch without keys changes nothing, and a patch applied twice is applied once. */
  lemma PatchLaws(s: Screenshot, data: ScreenshotPatch)
    ensures Patched(s, ScreenshotPatch(None, None, None, None, None)) == s
    ensures Patched(Patched(s, data), data) == Patched(s, data)
  {
  }

  /** The map the store keeps, with its order; the counters are the next ids. */
  class MemStorage {
    var users: map<int, User>
    var userOrder: seq<int>
    var screenshots: map<int, Screenshot>
    var screenshotOrder: seq<int>
    var userId: int
    var screenshotId: int

    ghost predicate Valid()
      reads this
    {
      && Indexed(userOrder, users.Keys, userId)
      && Indexed(screenshotOrder, screenshots.Keys, screenshotId)
      && (forall k :: k in users ==> users[k].id == k)
      && (forall k :: k in screenshots ==> screenshots[k].id == k)
    }

    /** The users in insertion order. */
    function AllUsers(): seq<User>
      reads this
      requires Valid()
    {
      Values(userOrder, users)
    }

    /** The screenshots in insertion order. */
    function AllScreenshots(): seq<Screenshot>
      reads this
      requires Valid()
    {
      Values(screenshotOrder, screenshots)
    }

    constructor()
      ensures Valid()
      ensures users == map[] && screenshots == map[] && userOrder == [] && screenshotOrder == []
      ensures userId == 1 && screenshotId == 1
    {
      users := map[];
      userOrder := [];
      screenshots := map[];
      screenshotOrder := [];
      userId := 1;
      screenshotId := 1;
    }

    /** `getUser`. */
    method GetUser(id: int) returns (r: Option<User>)
      requires Valid()
      ensures r == if id in users then Some(users[id]) else None
      ensures r.Some? ==> r.value.id == id
    {
      r := if id in users then Some(users[id]) else None;
    }

    /** `getUserByUsername`: the first user created with that name; names need not be unique. */
    method GetUserByUsername(username: string) returns (r: Option<User>)
      requires Valid()
      ensures match FirstNamed(AllUsers(), username)
        case Some(k) => r == Some(AllUsers()[k])
        case None => r == None
    {
      var i := 0;
      while i < |userOrder|
        invariant 0 <= i <= |userOrder|
        invariant forall j :: 0 <= j < i ==> AllUsers()[j].username != username
      {
        assert userOrder[i] in userOrder;
        var u := users[userOrder[i]];
        if u.username == username {
          FirstNamedAt(AllUsers(), username, i);
          return Some(u);
        }
        i := i + 1;
      }
      return None;
    }

    /** `createUser`: the next id, then the counter moves on. */
    method CreateUser(insertUser: InsertUser) returns (user: User)
      requires Valid()
      modifies this
      ensures Valid()
      ensures user == User(old(userId), insertUser.username, insertUser.password)
      ensures old(userId) !in old(users)
      ensures users == old(users)[user.id := user] && userOrder == old(userOrder) + [user.id]
      ensures userId == old(userId) + 1
      ensures screenshots == old(screenshots) && screenshotOrder == old(screenshotOrder)
      ensures screenshotId == old(screenshotId)
    {
      var id := userId;
      AppendIncreasing(userOrder, id);
      userId := userId + 1;
      user := User(id, insertUser.username, insertUser.password);
      users := users[id := user];
      userOrder := userOrder + [id];
    }

    /** `getScreenshot`. */
    method GetScreenshot(id: int) returns (r: Option<Screenshot>)
      requires Valid()
      ensures r == if id in screenshots then Some(screenshots[id]) else None
      ensures r.Some? ==> r.value.id == id
    {
      r := if id in screenshots then Some(screenshots[id]) else None;
    }

    /** `getScreenshotsByUserId`: the owner's screenshots in insertion order. */
    method GetScreenshotsByUserId(userId: int) returns (r: seq<Screenshot>)
      requires Valid()
      ensures r == OwnedBy(AllScreenshots(), userId)
      ensures forall s :: s in r <==> s.id in screenshots && screenshots[s.id] == s && s.userId == Some(userId)
      ensures AscendingIds(r)
    {
      r := [];
      var i := 0;
      while i < |screenshotOrder|
        invariant 0 <= i <= |screenshotOrder|
        invariant r == OwnedBy(Values(screenshotOrder[..i], screenshots), userId)
      {
        assert screenshotOrder[i] in screenshotOrder;
        var s := screenshots[screenshotOrder[i]];
        assert screenshotOrder[..i + 1][..i] == screenshotOrder[..i];
        assert Values(screenshotOrder[..i + 1], screenshots) == Values(screenshotOrder[..i], screenshots) + [s];
        if s.userId == Some(userId) {
          r := r + [s];
        }
        i := i + 1;
      }
      assert screenshotOrder[..i] == screenshotOrder;
      OwnedByStore(screenshotOrder, screenshots, screenshotId, userId);
    }

    /** `createScreenshot`. */
    method CreateScreenshot(insertScreenshot: InsertScreenshot) returns (s: Screenshot)
      requires Valid()
      modifies this
      ensures Valid()
      ensures s == Screenshot(old(screenshotId), insertScreenshot.userId, insertScreenshot.name,
                              insertScreenshot.imageUrl, insertScreenshot.settings, insertScreenshot.createdAt)
      ensures old(screenshotId) !in old(screenshots)
      ensures screenshots == old(screenshots)[s.id := s] && screenshotOrder == old(screenshotOrder) + [s.id]
      ensures screenshotId == old(screenshotId) + 1
      ensures users == old(users) && userOrder == old(userOrder) && userId == old(userId)
    {
      var id := screenshotId;
      AppendIncreasing(screenshotOrder, id);
      screenshotId := screenshotId + 1;
      s := Screenshot(id, insertScreenshot.userId, insertScreenshot.name,
                      insertScreenshot.imageUrl, insertScreenshot.settings, insertScreenshot.createdAt);
      screenshots := screenshots[id := s];
      screenshotOrder := screenshotOrder + [id];
    }

    /** `updateScreenshot`: a missing id changes nothing; otherwise the patched
        record replaces the old one in place. */
    method UpdateScreenshot(id: int, data: ScreenshotPatch) returns (r: Option<Screenshot>)
      requires Valid()
      modifies this
      ensures Valid()
      ensures id !in old(screenshots) ==> r == None && screenshots == old(screenshots)
      ensures id in old(screenshots) ==>
        r == Some(Patched(old(screenshots)[id], data)) && screenshots == old(screenshots)[id := r.value]
      ensures screenshotOrder == old(screenshotOrder) && screenshotId == old(screenshotId)
      ensures users == old(users) && userOrder == old(userOrder) && userId == old(userId)
    {
      if id !in screenshots {
        return None;
      }
      var updated := Patched(screenshots[id], data);
      screenshots := screenshots[id := updated];
      r := Some(updated);
    }

    /** `deleteScreenshot`: true exactly when the id was present. The counter stays,
        so the id is never drawn again. */
    method DeleteScreenshot(id: int) returns (deleted: bool)
      requires Valid()
      modifies this
      ensures Valid()
      ensures deleted == (id in old(screenshots))
      ensures screenshots == old(screenshots) - {id}
      ensures screenshotOrder == Without(old(screenshotOrder), id)
      ensures screenshotId == old(screenshotId)
      ensures users == old(users) && userOrder == old(userOrder) && userId == old(userId)
    {
      deleted := id in screenshots;
      WithoutIncreasing(screenshotOrder, id);
      screenshots := screenshots - {id};
      screenshotOrder := Without(screenshotOrder, id);
    }
  }

  /** The position `find` stops at is the first one with the name. */
  lemma FirstNamedAt(us: seq<User>, username: string, i: nat)
    requires i < |us| && us[i].username == username
    requires forall j :: 0 <= j < i ==> us[j].username != username
    ensures FirstNamed(us, username) == Some(i)
  {
  }
}
