/** The crawl driver: `Weibo.start` walks `uid_list` in order while
    `get_following` may append to it, fetches each user with
    `get_user_info`, and appends each stored record to the users file.

    The network is a parameter: `net(i)` is what the requests made for the
    uid at position `i` of the list return. Each position is visited at most
    once, so one answer per position is enough. */
module Crawler {
  import opened Values
  import opened OrderedDicts
  import opened Sanitizer
  import opened UserRecord
  import opened Store

  /** The profile payload: its `ok` flag and `data.userInfo`. */
  datatype Profile = Profile(ok: bool, userInfo: map<string, Value>)

  /** What the requests for one uid return: the profile request's status
      code and payload, the extended-info payload, and the uids the fans
      page links to, in page order. */
  datatype Fetch = Fetch(status: int, profile: Profile, extended: ExtendedInfo, followers: seq<string>)

  /** How `get_user_info` ends for one uid. */
  datatype Visit =
    | Saved(row: Row)      // returns 0 after writing the record's row
    | IdError              // the payload is not `ok`: returns -1
    | Banned               // a status other than 200: `sys.exit()`
    | Raised               // building the record raises; `start` catches it

  /** How the crawl ends: the list ran out, `num` reached `user_num`, or a
      visit stopped it. */
  datatype Outcome = Exhausted | Limit | Stopped(visit: Visit)

  /** The list, the users file and `num` when the crawl ends, and how. */
  datatype CrawlResult = CrawlResult(frontier: seq<string>, file: Option<seq<Row>>, num: nat, outcome: Outcome)

  // ---------------------------------------------------------------------
  // get_following

  /** `uid_list` after `get_following` has read the uids `found`: each one
      not yet in the list is appended. */
  function AppendNew(list: seq<string>, found: seq<string>): (r: seq<string>)
    ensures |list| <= |r| <= |list| + |found|
    decreases |found|
  {
    if found == [] then list
    else
      var before := AppendNew(list, found[..|found| - 1]);
      var u := found[|found| - 1];
      if u in before then before else before + [u]
  }

  /** The uids already listed stay where they were. */
  lemma {:induction false} AppendNewExtends(list: seq<string>, found: seq<string>)
    ensures list <= AppendNew(list, found)
    decreases |found|
  {
    if found != [] {
      AppendNewExtends(list, found[..|found| - 1]);
    }
  }

  /** Afterwards every uid found is in the list, and every appended uid was
      found. */
  lemma {:induction false} AppendNewCovers(list: seq<string>, found: seq<string>)
    ensures forall u :: u in found ==> u in AppendNew(list, found)
    ensures forall j :: |list| <= j < |AppendNew(list, found)| ==> AppendNew(list, found)[j] in found
    decreases |found|
  {
    if found != [] {
      var init := found[..|found| - 1];
      AppendNewCovers(list, init);
      assert found == init + [found[|found| - 1]];
    }
  }

  /** Every appended uid was in neither the old list nor among the uids
      appended before it. */
  lemma {:induction false} AppendNewFresh(list: seq<string>, found: seq<string>)
    ensures forall j :: |list| <= j < |AppendNew(list, found)| ==>
      AppendNew(list, found)[j] !in AppendNew(list, found)[..j]
    decreases |found|
  {
    if found != [] {
      var before := AppendNew(list, found[..|found| - 1]);
      var u := found[|found| - 1];
      AppendNewFresh(list, found[..|found| - 1]);
      if u !in before {
        var r := before + [u];
        assert r == AppendNew(list, found);
        forall j | |list| <= j < |r| ensures r[j] !in r[..j] {
          if j < |before| {
            assert r[..j] == before[..j];
          } else {
            assert r[..j] == before;
          }
        }
      }
    }
  }

  /** The first position of `u` in `s`. */
  function FirstIndex(s: seq<string>, u: string): (k: nat)
    requires u in s
    ensures k < |s| && s[k] == u
    ensures forall j :: 0 <= j < k ==> s[j] != u
  {
    if s[0] == u then 0 else 1 + FirstIndex(s[1..], u)
  }

  /** The appended uids keep the order in which they were first found. */
  lemma {:induction false} AppendNewOrder(list: seq<string>, found: seq<string>, a: nat, b: nat)
    requires |list| <= a < b < |AppendNew(list, found)|
    ensures AppendNew(list, found)[a] in found && AppendNew(list, found)[b] in found
    ensures FirstIndex(found, AppendNew(list, found)[a]) < FirstIndex(found, AppendNew(list, found)[b])
    decreases |found|
  {
    var r := AppendNew(list, found);
    var init := found[..|found| - 1];
    var before := AppendNew(list, init);
    var u := found[|found| - 1];
    AppendNewCovers(list, found);
    AppendNewCovers(list, init);
    if b < |before| {
      AppendNewOrder(list, init, a, b);
      FirstIndexPrefix(found, init, before[a]);
      FirstIndexPrefix(found, init, before[b]);
    } else {
      // `r[b]` is the last uid found, met there for the first time.
      assert r[b] == u && u !in init;
      assert forall j :: 0 <= j < |found| - 1 ==> found[j] != u by {
        forall j | 0 <= j < |found| - 1 ensures found[j] != u {
          assert found[j] == init[j];
        }
      }
      FirstIndexPrefix(found, init, before[a]);
    }
  }

  /** A uid found in a prefix is first found at the same place. */
  lemma FirstIndexPrefix(s: seq<string>, p: seq<string>, u: string)
    requires p <= s && u in p
    ensures FirstIndex(s, u) == FirstIndex(p, u)
  {
    var k := FirstIndex(p, u);
    var m := FirstIndex(s, u);
    assert s[k] == p[k];
    assert p[m] == s[m];
  }

  /** No uid occurs twice in the list. */
  predicate Distinct(list: seq<string>) {
    forall a, b :: 0 <= a < b < |list| ==> list[a] != list[b]
  }

  /** A list without repeats keeps none after `get_following`. */
  lemma AppendNewDistinct(list: seq<string>, found: seq<string>)
    requires Distinct(list)
    ensures Distinct(AppendNew(list, found))
  {
    var r := AppendNew(list, found);
    AppendNewFresh(list, found);
    AppendNewExtends(list, found);
    forall a, b | 0 <= a < b < |r| ensures r[a] != r[b] {
      if |list| <= b {
        assert r[a] in r[..b];
      } else {
        assert r[a] == list[a] && r[b] == list[b];
      }
    }
  }

  // ---------------------------------------------------------------------
  // get_user_info

  /** The row `user_to_csv` hands to `insert_or_update_user`: the record's
      values in key order. */
  function UserRow(user: Record): (row: Row)
    requires user.Valid()
    ensures |row| == |user.keys|
  {
    user.Values()
  }

  /** How `get_user_info` ends for `uid` given what the requests return. */
  function VisitOf(uid: string, f: Fetch, encodable: char -> bool): (v: Visit)
    ensures v == Banned <==> f.status != 200
    ensures v == IdError <==> f.status == 200 && !f.profile.ok
    ensures v == Raised <==>
      f.status == 200 && f.profile.ok && BuildSpec(uid, f.profile.userInfo, f.extended, encodable).None?
    ensures v.Saved? ==> |v.row| == |Headers|
  {
    if f.status != 200 then Banned
    else if !f.profile.ok then IdError
    else
      var r := BuildSpec(uid, f.profile.userInfo, f.extended, encodable);
      if r.None? then Raised
      else
        BuildKeys(uid, f.profile.userInfo, f.extended, encodable);
        Saved(UserRow(r.value))
  }

  /** The visit that stores a record, in terms of that record. */
  lemma VisitSaves(uid: string, f: Fetch, encodable: char -> bool, user: Record)
    requires f.status == 200 && f.profile.ok
    requires BuildSpec(uid, f.profile.userInfo, f.extended, encodable) == Some(user)
    ensures user.Valid()
    ensures VisitOf(uid, f, encodable) == Saved(UserRow(user))
  {
    BuildKeys(uid, f.profile.userInfo, f.extended, encodable);
  }

  /** The row of a record laid out in `user_to_csv`'s key order holds the
      value of the `k`-th field in column `k`. */
  lemma RowColumns(user: Record)
    requires user.Valid() && user.keys == RecordKeys()
    ensures forall k :: 0 <= k < FieldCount ==> user.Get(FieldAt(k)) == Some(UserRow(user)[k])
  {
    forall k | 0 <= k < FieldCount ensures user.Get(FieldAt(k)) == Some(UserRow(user)[k]) {
      PositionInjective(FieldAt(k), RecordKeys()[k]);
    }
  }

  /** The row written for a stored user holds the record's fields in
      header order, the uid first. */
  lemma SavedRowColumns(uid: string, f: Fetch, encodable: char -> bool)
    requires VisitOf(uid, f, encodable).Saved?
    ensures BuildSpec(uid, f.profile.userInfo, f.extended, encodable).Some?
    ensures var row := VisitOf(uid, f, encodable).row;
      var user := BuildSpec(uid, f.profile.userInfo, f.extended, encodable).value;
      forall k :: 0 <= k < FieldCount ==> user.Get(FieldAt(k)) == Some(row[k])
    ensures VisitOf(uid, f, encodable).row[0] == Str(Clean(uid, encodable))
  {
    var user := BuildSpec(uid, f.profile.userInfo, f.extended, encodable).value;
    BuildKeys(uid, f.profile.userInfo, f.extended, encodable);
    BuildHeadFields(uid, f.profile.userInfo, f.extended, encodable);
    assert VisitOf(uid, f, encodable).row == UserRow(user);
    RowColumns(user);
    PositionInjective(FieldAt(0), Id);
  }

  /** `get_user_info` as a function of the uid and the answers. */
  function Visitor(encodable: char -> bool): (visit: (string, Fetch) -> Visit)
    ensures forall u, f :: visit(u, f) == VisitOf(u, f, encodable)
  {
    (u, f) => VisitOf(u, f, encodable)
  }

  // ---------------------------------------------------------------------
  // start

  /** How far the list is below `user_num`; it shrinks whenever the list
      grows while it is short. */
  function Gap(frontier: seq<string>, userNum: int): nat {
    if |frontier| < userNum then userNum - |frontier| else 0
  }

  /** The list after the check in `start`: `get_following` runs only while
      the list is shorter than `user_num`. */
  function Grown(frontier: seq<string>, userNum: int, found: seq<string>): (r: seq<string>)
    ensures |frontier| <= |r|
    ensures |frontier| >= userNum ==> r == frontier
  {
    if |frontier| < userNum then AppendNew(frontier, found) else frontier
  }

  lemma GrownExtends(frontier: seq<string>, userNum: int, found: seq<string>)
    ensures frontier <= Grown(frontier, userNum, found)
  {
    if |frontier| < userNum {
      AppendNewExtends(frontier, found);
    }
  }

  /** The crawl from position `i` of the list, with `num` records stored so
      far: the loop body of `start`, one position at a time. `visit` is
      `get_user_info`. */
  function Crawl(frontier: seq<string>, i: nat, num: nat, userNum: int, file: Option<seq<Row>>,
                 net: nat -> Fetch, visit: (string, Fetch) -> Visit): (r: CrawlResult)
    requires i <= |frontier|
    ensures |frontier| <= |r.frontier|
    ensures num <= r.num && i + (r.num - num) <= |r.frontier|
    ensures r.outcome.Stopped? ==> i + (r.num - num) < |r.frontier|
    decreases Gap(frontier, userNum), |frontier| - i
  {
    if i == |frontier| then CrawlResult(frontier, file, num, Exhausted)
    else
      var next := Grown(frontier, userNum, net(i).followers);
      var v := visit(frontier[i], net(i));
      if !v.Saved? then CrawlResult(next, file, num, Stopped(v))
      else
        var written := InsertOrUpdateUser(Headers, [v.row], file);
        if num + 1 == userNum then CrawlResult(next, written, num + 1, Limit)
        else Crawl(next, i + 1, num + 1, userNum, written, net, visit)
  }

  /** One unfolding of `Crawl` at a position that stores its record and
      goes on. */
  lemma CrawlGoesOn(frontier: seq<string>, i: nat, num: nat, userNum: int, file: Option<seq<Row>>,
                    net: nat -> Fetch, visit: (string, Fetch) -> Visit)
    requires i < |frontier| && visit(frontier[i], net(i)).Saved? && num + 1 != userNum
    ensures Crawl(frontier, i, num, userNum, file, net, visit)
         == Crawl(Grown(frontier, userNum, net(i).followers), i + 1, num + 1, userNum,
                  InsertOrUpdateUser(Headers, [visit(frontier[i], net(i)).row], file), net, visit)
  {
  }

  /** One unfolding of `Crawl` at a position where the loop ends. */
  lemma CrawlHalts(frontier: seq<string>, i: nat, num: nat, userNum: int, file: Option<seq<Row>>,
                   net: nat -> Fetch, visit: (string, Fetch) -> Visit)
    requires i <= |frontier|
    requires !(i < |frontier| && visit(frontier[i], net(i)).Saved? && num + 1 != userNum)
    ensures var r := Crawl(frontier, i, num, userNum, file, net, visit);
      if i == |frontier| then r == CrawlResult(frontier, file, num, Exhausted)
      else if !visit(frontier[i], net(i)).Saved? then
        r == CrawlResult(Grown(frontier, userNum, net(i).followers), file, num, Stopped(visit(frontier[i], net(i))))
      else
        r == CrawlResult(Grown(frontier, userNum, net(i).followers),
                         InsertOrUpdateUser(Headers, [visit(frontier[i], net(i)).row], file), num + 1, Limit)
  {
  }

  /** The crawl only ever appends to the list. */
  lemma {:induction false} CrawlExtends(frontier: seq<string>, i: nat, num: nat, userNum: int,
                                        file: Option<seq<Row>>, net: nat -> Fetch, visit: (string, Fetch) -> Visit)
    requires i <= |frontier|
    ensures frontier <= Crawl(frontier, i, num, userNum, file, net, visit).frontier
    decreases Gap(frontier, userNum), |frontier| - i
  {
    if i < |frontier| {
      var next := Grown(frontier, userNum, net(i).followers);
      GrownExtends(frontier, userNum, net(i).followers);
      if visit(frontier[i], net(i)).Saved? && num + 1 != userNum {
        var written := InsertOrUpdateUser(Headers, [visit(frontier[i], net(i)).row], file);
        CrawlGoesOn(frontier, i, num, userNum, file, net, visit);
        CrawlExtends(next, i + 1, num + 1, userNum, written, net, visit);
        PrefixTransitive(frontier, next, Crawl(next, i + 1, num + 1, userNum, written, net, visit).frontier);
      } else {
        CrawlHalts(frontier, i, num, userNum, file, net, visit);
      }
    } else {
      CrawlHalts(frontier, i, num, userNum, file, net, visit);
    }
  }

  lemma PrefixTransitive(a: seq<string>, b: seq<string>, c: seq<string>)
    requires a <= b && b <= c
    ensures a <= c
  {
    assert forall k :: 0 <= k < |a| ==> a[k] == b[k] == c[k];
  }

  /** The rows of the `n` records stored from position `i` on. */
  function SavedRows(frontier: seq<string>, i: nat, n: nat, net: nat -> Fetch,
                     visit: (string, Fetch) -> Visit): (rows: seq<Row>)
    requires i + n <= |frontier|
    ensures |rows| == n
  {
    seq(n, k requires 0 <= k < n =>
      var v := visit(frontier[i + k], net(i + k));
      if v.Saved? then v.row else [])
  }

  lemma SavedRowsCons(frontier: seq<string>, i: nat, n: nat, net: nat -> Fetch, visit: (string, Fetch) -> Visit)
    requires 0 < n && i + n <= |frontier| && visit(frontier[i], net(i)).Saved?
    ensures SavedRows(frontier, i, n, net, visit)
         == [visit(frontier[i], net(i)).row] + SavedRows(frontier, i + 1, n - 1, net, visit)
  {
  }

  /** Every position from `i` on that the crawl got past stored its record. */
  ghost predicate SavedFrom(r: CrawlResult, i: nat, num: nat, net: nat -> Fetch, visit: (string, Fetch) -> Visit)
    requires i + (r.num - num) <= |r.frontier|
  {
    forall k :: i <= k < i + (r.num - num) ==> visit(r.frontier[k], net(k)).Saved?
  }

  lemma SavedFromStep(frontier: seq<string>, i: nat, num: nat, userNum: int,
                      file: Option<seq<Row>>, net: nat -> Fetch, visit: (string, Fetch) -> Visit)
    requires i < |frontier| && visit(frontier[i], net(i)).Saved?
    requires num + 1 != userNum ==>
      SavedFrom(Crawl(Grown(frontier, userNum, net(i).followers), i + 1, num + 1, userNum,
                      InsertOrUpdateUser(Headers, [visit(frontier[i], net(i)).row], file), net, visit),
                i + 1, num + 1, net, visit)
    ensures SavedFrom(Crawl(frontier, i, num, userNum, file, net, visit), i, num, net, visit)
  {
    if num + 1 != userNum {
      CrawlGoesOn(frontier, i, num, userNum, file, net, visit);
    } else {
      CrawlHalts(frontier, i, num, userNum, file, net, visit);
    }
    CrawlExtends(frontier, i, num, userNum, file, net, visit);
    assert Crawl(frontier, i, num, userNum, file, net, visit).frontier[i] == frontier[i];
  }

  /** The crawl visits the list in order: every position before the one it
      ends on stored its record. */
  lemma {:induction false} CrawlSavesInOrder(frontier: seq<string>, i: nat, num: nat, userNum: int,
                                             file: Option<seq<Row>>, net: nat -> Fetch, visit: (string, Fetch) -> Visit)
    requires i <= |frontier|
    ensures SavedFrom(Crawl(frontier, i, num, userNum, file, net, visit), i, num, net, visit)
    decreases Gap(frontier, userNum), |frontier| - i
  {
    if i < |frontier| && visit(frontier[i], net(i)).Saved? {
      if num + 1 != userNum {
        CrawlSavesInOrder(Grown(frontier, userNum, net(i).followers), i + 1, num + 1, userNum,
                          InsertOrUpdateUser(Headers, [visit(frontier[i], net(i)).row], file), net, visit);
      }
      SavedFromStep(frontier, i, num, userNum, file, net, visit);
    } else {
      CrawlHalts(frontier, i, num, userNum, file, net, visit);
    }
  }

  /** A stop happens on the visit at the position after the stored ones. */
  ghost predicate StoppedAt(r: CrawlResult, i: nat, num: nat, net: nat -> Fetch, visit: (string, Fetch) -> Visit)
    requires num <= r.num && (r.outcome.Stopped? ==> i + (r.num - num) < |r.frontier|)
  {
    r.outcome.Stopped? ==> r.outcome.visit == visit(r.frontier[i + (r.num - num)], net(i + (r.num - num)))
  }

  lemma StoppedAtStep(frontier: seq<string>, i: nat, num: nat, userNum: int,
                      file: Option<seq<Row>>, net: nat -> Fetch, visit: (string, Fetch) -> Visit)
    requires i < |frontier| && visit(frontier[i], net(i)).Saved? && num + 1 != userNum
    requires StoppedAt(Crawl(Grown(frontier, userNum, net(i).followers), i + 1, num + 1, userNum,
                             InsertOrUpdateUser(Headers, [visit(frontier[i], net(i)).row], file), net, visit),
                       i + 1, num + 1, net, visit)
    ensures StoppedAt(Crawl(frontier, i, num, userNum, file, net, visit), i, num, net, visit)
  {
    CrawlGoesOn(frontier, i, num, userNum, file, net, visit);
  }

  /** A crawl that stops does so on the visit at the position after the
      stored ones. */
  lemma {:induction false} CrawlStopsAt(frontier: seq<string>, i: nat, num: nat, userNum: int,
                                        file: Option<seq<Row>>, net: nat -> Fetch, visit: (string, Fetch) -> Visit)
    requires i <= |frontier|
    ensures StoppedAt(Crawl(frontier, i, num, userNum, file, net, visit), i, num, net, visit)
    decreases Gap(frontier, userNum), |frontier| - i
  {
    if i < |frontier| && visit(frontier[i], net(i)).Saved? && num + 1 != userNum {
      CrawlStopsAt(Grown(frontier, userNum, net(i).followers), i + 1, num + 1, userNum,
                   InsertOrUpdateUser(Headers, [visit(frontier[i], net(i)).row], file), net, visit);
      StoppedAtStep(frontier, i, num, userNum, file, net, visit);
    } else {
      CrawlHalts(frontier, i, num, userNum, file, net, visit);
      if i < |frontier| {
        CrawlExtends(frontier, i, num, userNum, file, net, visit);
        assert Crawl(frontier, i, num, userNum, file, net, visit).frontier[i] == frontier[i];
      }
    }
  }

  /** The file a crawl leaves is the rows it stored written one by one. */
  ghost predicate WroteSaved(r: CrawlResult, i: nat, num: nat, file: Option<seq<Row>>,
                             net: nat -> Fetch, visit: (string, Fetch) -> Visit)
    requires num <= r.num && i + (r.num - num) <= |r.frontier|
  {
    r.file == WriteAll(Headers, SavedRows(r.frontier, i, r.num - num, net, visit), file)
  }

  lemma WroteSavedStep(frontier: seq<string>, i: nat, num: nat, userNum: int,
                       file: Option<seq<Row>>, net: nat -> Fetch, visit: (string, Fetch) -> Visit)
    requires i < |frontier| && visit(frontier[i], net(i)).Saved?
    requires num + 1 != userNum ==>
      WroteSaved(Crawl(Grown(frontier, userNum, net(i).followers), i + 1, num + 1, userNum,
                       InsertOrUpdateUser(Headers, [visit(frontier[i], net(i)).row], file), net, visit),
                 i + 1, num + 1, InsertOrUpdateUser(Headers, [visit(frontier[i], net(i)).row], file), net, visit)
    ensures WroteSaved(Crawl(frontier, i, num, userNum, file, net, visit), i, num, file, net, visit)
  {
    var r := Crawl(frontier, i, num, userNum, file, net, visit);
    var row := visit(frontier[i], net(i)).row;
    if num + 1 != userNum {
      CrawlGoesOn(frontier, i, num, userNum, file, net, visit);
    } else {
      CrawlHalts(frontier, i, num, userNum, file, net, visit);
    }
    CrawlExtends(frontier, i, num, userNum, file, net, visit);
    assert r.num >= num + 1 && r.frontier[i] == frontier[i];
    SavedRowsCons(r.frontier, i, r.num - num, net, visit);
    WriteAllCons(Headers, row, SavedRows(r.frontier, i + 1, r.num - (num + 1), net, visit), file);
  }

  /** The users file gains exactly the rows of the stored records, one
      after another in list order. */
  lemma {:induction false} CrawlWritesInOrder(frontier: seq<string>, i: nat, num: nat, userNum: int,
                                              file: Option<seq<Row>>, net: nat -> Fetch, visit: (string, Fetch) -> Visit)
    requires i <= |frontier|
    ensures WroteSaved(Crawl(frontier, i, num, userNum, file, net, visit), i, num, file, net, visit)
    decreases Gap(frontier, userNum), |frontier| - i
  {
    if i < |frontier| && visit(frontier[i], net(i)).Saved? {
      if num + 1 != userNum {
        CrawlWritesInOrder(Grown(frontier, userNum, net(i).followers), i + 1, num + 1, userNum,
                           InsertOrUpdateUser(Headers, [visit(frontier[i], net(i)).row], file), net, visit);
      }
      WroteSavedStep(frontier, i, num, userNum, file, net, visit);
    } else {
      CrawlHalts(frontier, i, num, userNum, file, net, visit);
    }
  }

  /** How each ending leaves the crawl. */
  ghost predicate EndsAsStated(r: CrawlResult, i: nat, num: nat, userNum: int) {
    && (r.outcome.Exhausted? ==> i + (r.num - num) == |r.frontier|)
    && (r.outcome.Limit? ==> r.num == userNum)
    && (r.outcome.Stopped? ==> !r.outcome.visit.Saved?)
  }

  lemma EndsStep(frontier: seq<string>, i: nat, num: nat, userNum: int,
                 file: Option<seq<Row>>, net: nat -> Fetch, visit: (string, Fetch) -> Visit)
    requires i < |frontier| && visit(frontier[i], net(i)).Saved? && num + 1 != userNum
    requires EndsAsStated(Crawl(Grown(frontier, userNum, net(i).followers), i + 1, num + 1, userNum,
                                InsertOrUpdateUser(Headers, [visit(frontier[i], net(i)).row], file), net, visit),
                          i + 1, num + 1, userNum)
    ensures EndsAsStated(Crawl(frontier, i, num, userNum, file, net, visit), i, num, userNum)
  {
    CrawlGoesOn(frontier, i, num, userNum, file, net, visit);
  }

  /** How each ending leaves the crawl: an exhausted list was walked to its
      end, `Limit` comes with exactly `user_num` users stored, and a stop
      comes from a visit that stored nothing. */
  lemma {:induction false} CrawlEnds(frontier: seq<string>, i: nat, num: nat, userNum: int,
                                     file: Option<seq<Row>>, net: nat -> Fetch, visit: (string, Fetch) -> Visit)
    requires i <= |frontier|
    ensures EndsAsStated(Crawl(frontier, i, num, userNum, file, net, visit), i, num, userNum)
    decreases Gap(frontier, userNum), |frontier| - i
  {
    if i < |frontier| && visit(frontier[i], net(i)).Saved? && num + 1 != userNum {
      CrawlEnds(Grown(frontier, userNum, net(i).followers), i + 1, num + 1, userNum,
                InsertOrUpdateUser(Headers, [visit(frontier[i], net(i)).row], file), net, visit);
      EndsStep(frontier, i, num, userNum, file, net, visit);
    } else {
      CrawlHalts(frontier, i, num, userNum, file, net, visit);
    }
  }

  /** The bounds `user_num` puts on the crawl. */
  ghost predicate BoundedBy(r: CrawlResult, frontier: seq<string>, num: nat, userNum: int) {
    && (|frontier| >= userNum ==> r.frontier == frontier)
    && (num < userNum ==> r.num <= userNum)
    && (userNum <= num ==> !r.outcome.Limit?)
  }

  lemma BoundedStep(frontier: seq<string>, i: nat, num: nat, userNum: int,
                    file: Option<seq<Row>>, net: nat -> Fetch, visit: (string, Fetch) -> Visit)
    requires i < |frontier| && visit(frontier[i], net(i)).Saved? && num + 1 != userNum
    requires BoundedBy(Crawl(Grown(frontier, userNum, net(i).followers), i + 1, num + 1, userNum,
                             InsertOrUpdateUser(Headers, [visit(frontier[i], net(i)).row], file), net, visit),
                       Grown(frontier, userNum, net(i).followers), num + 1, userNum)
    ensures BoundedBy(Crawl(frontier, i, num, userNum, file, net, visit), frontier, num, userNum)
  {
    CrawlGoesOn(frontier, i, num, userNum, file, net, visit);
  }

  /** `get_following` runs only while the list is shorter than `user_num`,
      so a long enough list never grows; with `num` below `user_num` no
      more than `user_num` users are stored, and with `user_num` already
      reached (zero, say) the loop never breaks on it. */
  lemma {:induction false} CrawlBounded(frontier: seq<string>, i: nat, num: nat, userNum: int,
                                        file: Option<seq<Row>>, net: nat -> Fetch, visit: (string, Fetch) -> Visit)
    requires i <= |frontier|
    ensures BoundedBy(Crawl(frontier, i, num, userNum, file, net, visit), frontier, num, userNum)
    decreases Gap(frontier, userNum), |frontier| - i
  {
    if i < |frontier| && visit(frontier[i], net(i)).Saved? && num + 1 != userNum {
      CrawlBounded(Grown(frontier, userNum, net(i).followers), i + 1, num + 1, userNum,
                   InsertOrUpdateUser(Headers, [visit(frontier[i], net(i)).row], file), net, visit);
      BoundedStep(frontier, i, num, userNum, file, net, visit);
    } else {
      CrawlHalts(frontier, i, num, userNum, file, net, visit);
    }
  }

  /** A ban ends the crawl at once: nothing is stored for the banned uid or
      any later one. */
  lemma BanStops(frontier: seq<string>, i: nat, num: nat, userNum: int, file: Option<seq<Row>>,
                 net: nat -> Fetch, encodable: char -> bool)
    requires i < |frontier| && net(i).status != 200
    ensures var r := Crawl(frontier, i, num, userNum, file, net, Visitor(encodable));
      r.outcome == Stopped(Banned) && r.file == file && r.num == num
  {
  }

  /** A uid whose profile is not `ok` ends the crawl with nothing stored
      for it. */
  lemma IdErrorStops(frontier: seq<string>, i: nat, num: nat, userNum: int, file: Option<seq<Row>>,
                     net: nat -> Fetch, encodable: char -> bool)
    requires i < |frontier| && net(i).status == 200 && !net(i).profile.ok
    ensures var r := Crawl(frontier, i, num, userNum, file, net, Visitor(encodable));
      r.outcome == Stopped(IdError) && r.file == file && r.num == num
  {
  }

  /** With `user_num` no larger than the seed list, the list never grows and
      at most `user_num` users are stored. */
  lemma SeedListLongEnough(seeds: seq<string>, userNum: int, file: Option<seq<Row>>,
                           net: nat -> Fetch, visit: (string, Fetch) -> Visit)
    requires 1 <= userNum <= |seeds|
    ensures Crawl(seeds, 0, 0, userNum, file, net, visit).frontier == seeds
    ensures Crawl(seeds, 0, 0, userNum, file, net, visit).num <= userNum
  {
    CrawlBounded(seeds, 0, 0, userNum, file, net, visit);
  }

  lemma GrownDistinct(frontier: seq<string>, userNum: int, found: seq<string>)
    requires Distinct(frontier)
    ensures Distinct(Grown(frontier, userNum, found))
  {
    if |frontier| < userNum {
      AppendNewDistinct(frontier, found);
    }
  }

  /** A list without repeats keeps none over the whole crawl: the seed list
      is taken as given, so this holds when the seeds are distinct. */
  lemma {:induction false} CrawlKeepsDistinct(frontier: seq<string>, i: nat, num: nat, userNum: int,
                                              file: Option<seq<Row>>, net: nat -> Fetch, visit: (string, Fetch) -> Visit)
    requires i <= |frontier| && Distinct(frontier)
    ensures Distinct(Crawl(frontier, i, num, userNum, file, net, visit).frontier)
    decreases Gap(frontier, userNum), |frontier| - i
  {
    if i < |frontier| {
      GrownDistinct(frontier, userNum, net(i).followers);
      if visit(frontier[i], net(i)).Saved? && num + 1 != userNum {
        CrawlGoesOn(frontier, i, num, userNum, file, net, visit);
        CrawlKeepsDistinct(Grown(frontier, userNum, net(i).followers), i + 1, num + 1, userNum,
                           InsertOrUpdateUser(Headers, [visit(frontier[i], net(i)).row], file), net, visit);
      } else {
        CrawlHalts(frontier, i, num, userNum, file, net, visit);
      }
    } else {
      CrawlHalts(frontier, i, num, userNum, file, net, visit);
    }
  }

  // ---------------------------------------------------------------------
  // The crawler object

  /** The state of a `Weibo` crawler: the uid list it walks, the user
      limit, the uid being fetched and its record, and the users file. */
  class Weibo {
    var uidList: seq<string>
    const userNum: int
    var uid: string
    var user: Record
    var usersCsv: Option<seq<Row>>
    const encodable: char -> bool

    /** `Weibo(config)`: the list is `user_id_list` as given, and
        `user_num` defaults to its length. */
    constructor (userIdList: seq<string>, userNumSetting: Option<int>, usersCsv: Option<seq<Row>>,
                 encodable: char -> bool)
      ensures uidList == userIdList
      ensures userNum == if userNumSetting.Some? then userNumSetting.value else |userIdList|
      ensures uid == "" && user == Empty()
      ensures this.usersCsv == usersCsv && this.encodable == encodable
    {
      uidList := userIdList;
      userNum := if userNumSetting.Some? then userNumSetting.value else |userIdList|;
      uid := "";
      user := Empty();
      this.usersCsv := usersCsv;
      this.encodable := encodable;
    }

    /** `initialize_info(uid)`. */
    method InitializeInfo(uid: string)
      modifies this
      ensures this.uid == uid && user == Empty()
      ensures uidList == old(uidList) && usersCsv == old(usersCsv)
    {
      user := Empty();
      this.uid := uid;
    }

    /** `get_following`, given the uids the fans page links to. */
    method GetFollowing(found: seq<string>)
      modifies this
      ensures uidList == AppendNew(old(uidList), found)
      ensures uid == old(uid) && user == old(user) && usersCsv == old(usersCsv)
    {
      for i := 0 to |found|
        invariant uidList == AppendNew(old(uidList), found[..i])
        invariant uid == old(uid) && user == old(user) && usersCsv == old(usersCsv)
      {
        assert found[..i + 1][..i] == found[..i];
        if found[i] !in uidList {
          uidList := uidList + [found[i]];
        }
      }
      assert found[..|found|] == found;
    }

    /** `user_to_csv`: appends the record's row to the users file. */
    method UserToCsv()
      requires user.Valid()
      modifies this
      ensures uidList == old(uidList) && uid == old(uid) && user == old(user)
      ensures usersCsv == InsertOrUpdateUser(Headers, [UserRow(user)], old(usersCsv))
      ensures usersCsv.Some?
    {
      var resultData := [UserRow(user)];
      usersCsv := InsertOrUpdateUser(Headers, resultData, usersCsv);
    }

    /** `get_user_info` for the current uid, given what its requests return. */
    method GetUserInfo(f: Fetch) returns (v: Visit)
      modifies this
      ensures v == VisitOf(uid, f, encodable)
      ensures v.Saved? ==> Some(user) == BuildSpec(uid, f.profile.userInfo, f.extended, encodable)
      ensures v.Saved? ==> usersCsv == InsertOrUpdateUser(Headers, [v.row], old(usersCsv))
      ensures !v.Saved? ==> user == old(user) && usersCsv == old(usersCsv)
      ensures uidList == old(uidList) && uid == old(uid)
    {
      if f.status != 200 {
        return Banned;
      }
      if !f.profile.ok {
        return IdError;
      }
      var built := BuildUserInfo(uid, f.profile.userInfo, f.extended, encodable);
      if built.None? {
        return Raised;
      }
      VisitSaves(uid, f, encodable, built.value);
      user := built.value;
      UserToCsv();
      v := Saved(UserRow(built.value));
    }

    /** One pass of the loop in `start` for the uid at position `i`, with
        `num` users stored so far: `None` when the loop goes on to the next
        position, or how `start` ends here. */
    method Step(net: nat -> Fetch, i: nat, num: nat) returns (end: Option<Outcome>)
      requires i < |uidList|
      modifies this
      ensures uidList == Grown(old(uidList), userNum, net(i).followers) && i < |uidList|
      ensures uid == old(uidList)[i]
      ensures var v := VisitOf(old(uidList)[i], net(i), encodable);
        && (v.Saved? ==> Some(user) == BuildSpec(uid, net(i).profile.userInfo, net(i).extended, encodable))
        && (v.Saved? ==> usersCsv == InsertOrUpdateUser(Headers, [v.row], old(usersCsv)))
        && (!v.Saved? ==> user == Empty() && usersCsv == old(usersCsv))
      ensures var r := Crawl(old(uidList), i, num, userNum, old(usersCsv), net, Visitor(encodable));
        end.Some? ==> r == CrawlResult(uidList, usersCsv, if end.value.Limit? then num + 1 else num, end.value)
      ensures end.None? ==>
        Crawl(old(uidList), i, num, userNum, old(usersCsv), net, Visitor(encodable))
        == Crawl(uidList, i + 1, num + 1, userNum, usersCsv, net, Visitor(encodable))
    {
      InitializeInfo(uidList[i]);
      if |uidList| < userNum {
        GetFollowing(net(i).followers);
      }
      var v := GetUserInfo(net(i));
      if !v.Saved? {
        return Some(Stopped(v));
      }
      if num + 1 == userNum {
        return Some(Limit);
      }
      return None;
    }

    /** `start`: the crawl loop over the growing list. The final `uid` and
        `user` are left unstated: nothing reads them after `start`. */
    method Start(net: nat -> Fetch) returns (outcome: Outcome)
      modifies this
      ensures var r := Crawl(old(uidList), 0, 0, userNum, old(usersCsv), net, Visitor(encodable));
        uidList == r.frontier && usersCsv == r.file && outcome == r.outcome
    {
      var num: nat := 0;
      var i: nat := 0;
      while i < |uidList|
        invariant i <= |uidList|
        invariant Crawl(uidList, i, num, userNum, usersCsv, net, Visitor(encodable))
               == Crawl(old(uidList), 0, 0, userNum, old(usersCsv), net, Visitor(encodable))
        decreases Gap(uidList, userNum), |uidList| - i
      {
        var end := Step(net, i, num);
        if end.Some? {
          return end.value;
        }
        num := num + 1;
        i := i + 1;
      }
      return Exhausted;
    }
  }
}
