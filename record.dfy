/** The user record built by `Weibo.get_user_info` once the profile payload
    says `ok`: three profile fields, six fields filled from the extended-info
    cards, the three counters, nine more profile fields; then sanitised. */
module UserRecord {
  import opened Values
  import opened OrderedDicts
  import opened Normalizer
  import opened Sanitizer

  /** The keys of a record. */
  datatype Field =
    | Id | ScreenName | Gender
    | Birthday | Location | Education | Company | RegistrationTime | Sunshine
    | StatusesCount | FollowersCount | FollowCount
    | Description | ProfileUrl | ProfileImageUrl | AvatarHd
    | Urank | Mbrank | Verified | VerifiedType | VerifiedReason
  {
    /** Where the field stands in a record. */
    function Position(): nat {
      match this
      case Id => 0
      case ScreenName => 1
      case Gender => 2
      case Birthday => 3
      case Location => 4
      case Education => 5
      case Company => 6
      case RegistrationTime => 7
      case Sunshine => 8
      case StatusesCount => 9
      case FollowersCount => 10
      case FollowCount => 11
      case Description => 12
      case ProfileUrl => 13
      case ProfileImageUrl => 14
      case AvatarHd => 15
      case Urank => 16
      case Mbrank => 17
      case Verified => 18
      case VerifiedType => 19
      case VerifiedReason => 20
    }
  }

  type Record = ODict<Field, Value>

  /** The card labels the merge looks for (`zh_list`), and the field each one
      fills (`en_list`). */
  const ZhList: seq<string> := ["生日", "所在地", "小学", "初中", "高中", "大学", "公司", "注册时间", "阳光信用"]
  const EnList: seq<Field> := [Birthday, Location, Education, Education, Education, Education,
                               Company, RegistrationTime, Sunshine]

  const FieldCount: nat := 21

  /** The field at a position of a record. */
  function FieldAt(i: nat): (f: Field)
    requires i < FieldCount
    ensures f.Position() == i
  {
    [Id, ScreenName, Gender,
     Birthday, Location, Education, Company, RegistrationTime, Sunshine,
     StatusesCount, FollowersCount, FollowCount,
     Description, ProfileUrl, ProfileImageUrl, AvatarHd,
     Urank, Mbrank, Verified, VerifiedType, VerifiedReason][i]
  }

  /** The keys of a record, in the order the record is built. */
  function RecordKeys(): (ks: seq<Field>)
    ensures |ks| == FieldCount
    ensures forall i :: 0 <= i < FieldCount ==> ks[i].Position() == i
  {
    seq(FieldCount, i requires 0 <= i < FieldCount => FieldAt(i))
  }

  /** One entry of a card group: its `item_name` (`None` when absent or no
      string) and its `item_content` (`None` when absent). */
  datatype Card = Card(itemName: Option<string>, itemContent: Option<Value>)

  /** The extended-info payload: its `ok` flag and `data.cards`, where `None`
      means `cards` is no list and each list entry is given by its
      `card_group`. */
  datatype ExtendedInfo = ExtendedInfo(ok: bool, cards: Option<seq<seq<Card>>>)

  /** `s.index(x)`. */
  function IndexOf(s: seq<string>, x: string): (i: nat)
    requires x in s
    ensures i < |s| && s[i] == x && x !in s[..i]
  {
    if s[0] == x then 0
    else
      var i := 1 + IndexOf(s[1..], x);
      assert s[..i] == [s[0]] + s[1..][..i - 1];
      i
  }

  /** The field a card with this `item_name` writes: `en_list[zh_list.index(name)]`. */
  function FieldOf(name: Option<string>): (f: Option<Field>)
    ensures f.Some? <==> name.Some? && name.value in ZhList
    ensures f.Some? ==> f.value in EnList
  {
    if name.Some? && name.value in ZhList then Some(EnList[IndexOf(ZhList, name.value)]) else None
  }

  /** `card.get("item_content", "")`. */
  function ContentOf(c: Card): Value {
    if c.itemContent.Some? then c.itemContent.value else Str("")
  }

  /** The cards the merge reads: the first two card groups, concatenated,
      when the payload is `ok` and `cards` is a list of more than one group. */
  function CardList(ext: ExtendedInfo): (cs: seq<Card>)
    ensures !ext.ok || ext.cards.None? || |ext.cards.value| <= 1 ==> cs == []
    ensures ext.ok && ext.cards.Some? && |ext.cards.value| > 1 ==>
      cs == ext.cards.value[0] + ext.cards.value[1]
  {
    if ext.ok && ext.cards.Some? && |ext.cards.value| > 1 then ext.cards.value[0] + ext.cards.value[1] else []
  }

  /** The record after the merge loop has read `cards`. */
  function MergeSpec(d: Record, cards: seq<Card>): (r: Record)
    ensures d.Valid() ==> r.Valid()
    decreases |cards|
  {
    if cards == [] then d
    else
      var before := MergeSpec(d, cards[..|cards| - 1]);
      var last := cards[|cards| - 1];
      var f := FieldOf(last.itemName);
      if f.Some? then
        assert d.Valid() ==> before.Put(f.value, ContentOf(last)).Valid() by {
          if d.Valid() { before.PutValid(f.value, ContentOf(last)); }
        }
        before.Put(f.value, ContentOf(last))
      else before
  }

  /** The merge loop of `get_user_info`. */
  method MergeCards(d: Record, cards: seq<Card>) returns (r: Record)
    ensures r == MergeSpec(d, cards)
  {
    r := d;
    for i := 0 to |cards|
      invariant r == MergeSpec(d, cards[..i])
    {
      var card := cards[i];
      assert cards[..i + 1][..i] == cards[..i];
      var f := FieldOf(card.itemName);
      if f.Some? {
        r := r.Put(f.value, ContentOf(card));
      }
    }
    assert cards[..|cards|] == cards;
  }

  /** The loop `for i in en_list: user_info[i] = ""`. */
  method ClearFields(d: Record, fields: seq<Field>) returns (r: Record)
    ensures r == PutEach(d, fields, Str(""))
  {
    r := d;
    for i := 0 to |fields|
      invariant r == PutEach(d, fields[..i], Str(""))
    {
      PutEachStep(d, fields, i, Str(""));
      r := r.Put(fields[i], Str(""));
    }
    assert fields[..|fields|] == fields;
  }

  /** `id`, `screen_name` and `gender`, the first three entries. */
  function HeadEntries(uid: string, info: map<string, Value>): (e: seq<(Field, Value)>)
    ensures |e| == 3
    ensures forall i :: 0 <= i < |e| ==> e[i].0.Position() == i
  {
    [(Id, Str(uid)),
     (ScreenName, GetOr(info, "screen_name", Str(""))),
     (Gender, GetOr(info, "gender", Str("")))]
  }

  function Head(uid: string, info: map<string, Value>): Record {
    PutAll(Empty(), HeadEntries(uid, info))
  }

  /** The three counters, the first entries written after the merge. */
  function CounterEntries(statuses: Value, followers: Value, follows: Value): (e: seq<(Field, Value)>)
    ensures |e| == 3
    ensures forall i :: 0 <= i < |e| ==> e[i].0.Position() == 9 + i
  {
    [(StatusesCount, statuses), (FollowersCount, followers), (FollowCount, follows)]
  }

  /** The profile's text fields, written after the counters. */
  function TextEntries(info: map<string, Value>): (e: seq<(Field, Value)>)
    ensures |e| == 4
    ensures forall i :: 0 <= i < |e| ==> e[i].0.Position() == 12 + i
  {
    [(Description, GetOr(info, "description", Str(""))),
     (ProfileUrl, GetOr(info, "profile_url", Str(""))),
     (ProfileImageUrl, GetOr(info, "profile_image_url", Str(""))),
     (AvatarHd, GetOr(info, "avatar_hd", Str("")))]
  }

  /** The profile's ranks and verification fields, written last. */
  function RankEntries(info: map<string, Value>): (e: seq<(Field, Value)>)
    ensures |e| == 5
    ensures forall i :: 0 <= i < |e| ==> e[i].0.Position() == 16 + i
  {
    [(Urank, GetOr(info, "urank", Int(0))),
     (Mbrank, GetOr(info, "mbrank", Int(0))),
     (Verified, GetOr(info, "verified", Bool(false))),
     (VerifiedType, GetOr(info, "verified_type", Int(-1))),
     (VerifiedReason, GetOr(info, "verified_reason", Str("")))]
  }

  /** The twelve entries written after the merge, counters first. */
  function TailEntries(statuses: Value, followers: Value, follows: Value, info: map<string, Value>): (e: seq<(Field, Value)>)
    ensures |e| == 12
    ensures forall i :: 0 <= i < |e| ==> e[i].0.Position() == 9 + i
  {
    CounterEntries(statuses, followers, follows) + TextEntries(info) + RankEntries(info)
  }

  function Tail(d: Record, statuses: Value, followers: Value, follows: Value, info: map<string, Value>): Record {
    PutAll(d, TailEntries(statuses, followers, follows, info))
  }

  /** The first nine fields, after the clearing loop and the merge. */
  function Merged(uid: string, info: map<string, Value>, ext: ExtendedInfo): Record {
    MergeSpec(PutEach(Head(uid, info), EnList, Str("")), CardList(ext))
  }

  /** The record before `standardize_info`; `None` when `string_to_int`
      raises on a counter. */
  function Unsanitized(uid: string, info: map<string, Value>, ext: ExtendedInfo): Option<Record>
  {
    var merged := Merged(uid, info, ext);
    var statuses := StringToInt(GetOr(info, "statuses_count", Int(0)));
    var followers := StringToInt(GetOr(info, "followers_count", Int(0)));
    var follows := StringToInt(GetOr(info, "follow_count", Int(0)));
    if statuses.None? || followers.None? || follows.None? then None
    else Some(Tail(merged, statuses.value, followers.value, follows.value, info))
  }

  /** The record `get_user_info` stores in `self.user`, or `None` when
      building it raises. */
  function BuildSpec(uid: string, info: map<string, Value>, ext: ExtendedInfo, encodable: char -> bool): Option<Record>
  {
    var raw := Unsanitized(uid, info, ext);
    if raw.None? then None else StandardizeSpec(raw.value, encodable)
  }

  /** `get_user_info` from the point `ok` is seen up to `standardize_info`. */
  method BuildUserInfo(uid: string, info: map<string, Value>, ext: ExtendedInfo, encodable: char -> bool)
    returns (r: Option<Record>)
    ensures r == BuildSpec(uid, info, ext, encodable)
  {
    var userInfo := Head(uid, info);
    userInfo := ClearFields(userInfo, EnList);
    if ext.ok {
      var cards := ext.cards;
      if cards.Some? && |cards.value| > 1 {
        var cardList := cards.value[0] + cards.value[1];
        userInfo := MergeCards(userInfo, cardList);
      }
    }
    var statuses := StringToInt(GetOr(info, "statuses_count", Int(0)));
    if statuses.None? { return None; }
    var followers := StringToInt(GetOr(info, "followers_count", Int(0)));
    if followers.None? { return None; }
    var follows := StringToInt(GetOr(info, "follow_count", Int(0)));
    if follows.None? { return None; }
    userInfo := Tail(userInfo, statuses.value, followers.value, follows.value, info);
    RecordValid(uid, info, ext);
    r := Standardize(userInfo, encodable);
  }

  // ---------------------------------------------------------------------
  // Properties

  /** The four school labels: primary, middle, high school, university. */
  const SchoolLabels: seq<string> := ["小学", "初中", "高中", "大学"]

  /** The labels differ already in their first characters. */
  lemma ZhListDistinct()
    ensures forall a, b :: 0 <= a < b < |ZhList| ==> ZhList[a] != ZhList[b]
  {
    forall a, b | 0 <= a < b < |ZhList| ensures ZhList[a] != ZhList[b] {
      assert ZhList[a][0] != ZhList[b][0];
    }
  }

  /** Each label writes the field listed beside it. */
  lemma LabelTable(i: nat)
    requires i < |ZhList|
    ensures FieldOf(Some(ZhList[i])) == Some(EnList[i])
  {
    var j := IndexOf(ZhList, ZhList[i]);
    ZhListDistinct();
    assert j == i;
  }

  /** The four labels at positions 2 to 5 of the table write `education`,
      the others do not. */
  lemma EducationSlots(j: nat)
    requires j < |EnList|
    ensures EnList[j] == Education <==> 2 <= j < 6
  {
  }

  lemma SchoolSlots(j: nat)
    requires j < |ZhList|
    ensures ZhList[j] in SchoolLabels <==> 2 <= j < 6
  {
    ZhListDistinct();
    if ZhList[j] in SchoolLabels {
      var m :| 0 <= m < |SchoolLabels| && SchoolLabels[m] == ZhList[j];
      assert SchoolLabels[m] == ZhList[m + 2];
    }
  }

  /** Exactly the four school labels write `education`. */
  lemma SchoolLabelsShareEducation(name: string)
    ensures FieldOf(Some(name)) == Some(Education) <==> name in SchoolLabels
  {
    if name in ZhList {
      var j := IndexOf(ZhList, name);
      EducationSlots(j);
      SchoolSlots(j);
    } else {
      assert forall m :: 0 <= m < |SchoolLabels| ==> SchoolLabels[m] == ZhList[m + 2];
    }
  }

  lemma PositionInjective(a: Field, b: Field)
    requires a.Position() == b.Position()
    ensures a == b
  {
    assert FieldAt(a.Position()) == a;
  }

  /** `Field.Position` as a function value. */
  const Pos: Field -> nat := (f: Field) => f.Position()

  /** The record holds exactly the first `n` fields, in position order. */
  ghost predicate InOrder(d: Record, n: nat) {
    Ranked(d, Pos, n)
  }

  /** A record in order holds every field of a lower position. */
  lemma InOrderHas(d: Record, n: nat)
    requires InOrder(d, n)
    ensures forall f: Field :: f.Position() < n ==> f in d.vals
  {
    forall f: Field | f.Position() < n ensures f in d.vals {
      PositionInjective(f, d.keys[f.Position()]);
    }
  }

  lemma InOrderValid(d: Record, n: nat)
    requires InOrder(d, n)
    ensures d.Valid()
  {
    forall a, b | Pos(a) == Pos(b) ensures a == b { PositionInjective(a, b); }
    RankedValid(d, Pos, n);
  }

  /** A record with all fields in order has the keys `RecordKeys()`. */
  lemma InOrderKeys(d: Record)
    requires InOrder(d, FieldCount)
    ensures d.keys == RecordKeys()
  {
    forall i | 0 <= i < FieldCount ensures d.keys[i] == RecordKeys()[i] {
      PositionInjective(d.keys[i], RecordKeys()[i]);
    }
  }

  /** The first three entries, from the profile. */
  lemma HeadKeys(uid: string, info: map<string, Value>)
    ensures InOrder(Head(uid, info), 3)
    ensures Head(uid, info).Get(Id) == Some(Str(uid))
    ensures Head(uid, info).Get(ScreenName) == Some(GetOr(info, "screen_name", Str("")))
    ensures Head(uid, info).Get(Gender) == Some(GetOr(info, "gender", Str("")))
  {
    var entries := HeadEntries(uid, info);
    PutAllNext(Empty(), Pos, 0, entries);
    assert entries[0].0 == Id && entries[1].0 == ScreenName && entries[2].0 == Gender;
  }

  /** Clearing fields of the next ranks, then ones already cleared, then
      more of the next ranks, appends each field once. */
  lemma ClearInOrder(d: Record, n: nat, a: seq<Field>, b: seq<Field>, c: seq<Field>, v: Value)
    requires InOrder(d, n)
    requires forall i :: 0 <= i < |a| ==> a[i].Position() == n + i
    requires forall i :: 0 <= i < |b| ==> b[i] in a
    requires forall i :: 0 <= i < |c| ==> c[i].Position() == n + |a| + i
    ensures InOrder(PutEach(d, a + b + c, v), n + |a| + |c|)
  {
    PutEachConcat(d, a + b, c, v);
    PutEachConcat(d, a, b, v);
    PutEachNext(d, Pos, n, a, v);
    PutEachPresent(PutEach(d, a, v), Pos, n + |a|, b, v);
    PutEachNext(PutEach(PutEach(d, a, v), b, v), Pos, n + |a|, c, v);
  }

  /** After the nine fields are cleared the record has its first nine keys. */
  lemma ClearedKeys(d: Record)
    requires InOrder(d, 3)
    ensures InOrder(PutEach(d, EnList, Str("")), 9)
  {
    var a: seq<Field> := [Birthday, Location, Education];
    var b: seq<Field> := [Education, Education, Education];
    var c: seq<Field> := [Company, RegistrationTime, Sunshine];
    assert EnList == a + b + c;
    ClearInOrder(d, 3, a, b, c, Str(""));
  }

  /** Writing a field that is present keeps the order. */
  lemma PutPresentInOrder(d: Record, n: nat, k: Field, v: Value)
    requires InOrder(d, n) && k in d.vals
    ensures InOrder(d.Put(k, v), n)
  {
  }

  /** The merge writes only fields that are already present. */
  lemma {:induction false} MergeInOrder(d: Record, cards: seq<Card>)
    requires InOrder(d, 9)
    ensures InOrder(MergeSpec(d, cards), 9)
    decreases |cards|
  {
    if cards != [] {
      var init := cards[..|cards| - 1];
      var last := cards[|cards| - 1];
      MergeInOrder(d, init);
      var f := FieldOf(last.itemName);
      if f.Some? {
        EnListPositions();
        InOrderHas(MergeSpec(d, init), 9);
        PutPresentInOrder(MergeSpec(d, init), 9, f.value, ContentOf(last));
      }
    }
  }

  /** The twelve keys `Tail` writes are new, so they go to the end in order. */
  lemma TailKeys(d: Record, statuses: Value, followers: Value, follows: Value, info: map<string, Value>)
    requires InOrder(d, 9)
    ensures InOrder(Tail(d, statuses, followers, follows, info), FieldCount)
  {
    PutAllNext(d, Pos, 9, TailEntries(statuses, followers, follows, info));
  }

  /** `Tail` keeps the first nine fields. */
  lemma TailKeeps(d: Record, statuses: Value, followers: Value, follows: Value, info: map<string, Value>)
    requires InOrder(d, 9)
    ensures forall f: Field :: f.Position() < 9 ==> Tail(d, statuses, followers, follows, info).Get(f) == d.Get(f)
  {
    PutAllNext(d, Pos, 9, TailEntries(statuses, followers, follows, info));
    InOrderHas(d, 9);
  }

  /** `Tail` writes the counters given. */
  lemma TailCounters(d: Record, statuses: Value, followers: Value, follows: Value, info: map<string, Value>)
    ensures var r := Tail(d, statuses, followers, follows, info);
      && r.Get(StatusesCount) == Some(statuses)
      && r.Get(FollowersCount) == Some(followers)
      && r.Get(FollowCount) == Some(follows)
  {
    var tail := TailEntries(statuses, followers, follows, info);
    PutAllLast(d, tail, 0);
    PutAllLast(d, tail, 1);
    PutAllLast(d, tail, 2);
  }

  /** `Tail` writes the profile's text fields, or empty strings. */
  lemma TailTextFields(d: Record, statuses: Value, followers: Value, follows: Value, info: map<string, Value>)
    ensures var r := Tail(d, statuses, followers, follows, info);
      && r.Get(Description) == Some(GetOr(info, "description", Str("")))
      && r.Get(ProfileUrl) == Some(GetOr(info, "profile_url", Str("")))
      && r.Get(ProfileImageUrl) == Some(GetOr(info, "profile_image_url", Str("")))
      && r.Get(AvatarHd) == Some(GetOr(info, "avatar_hd", Str("")))
  {
    var tail := TailEntries(statuses, followers, follows, info);
    PutAllLast(d, tail, 3);
    PutAllLast(d, tail, 4);
    PutAllLast(d, tail, 5);
    PutAllLast(d, tail, 6);
  }

  /** `Tail` writes the profile's ranks, or 0. */
  lemma TailRankFields(d: Record, statuses: Value, followers: Value, follows: Value, info: map<string, Value>)
    ensures var r := Tail(d, statuses, followers, follows, info);
      && r.Get(Urank) == Some(GetOr(info, "urank", Int(0)))
      && r.Get(Mbrank) == Some(GetOr(info, "mbrank", Int(0)))
  {
    var tail := TailEntries(statuses, followers, follows, info);
    PutAllLast(d, tail, 7);
    PutAllLast(d, tail, 8);
  }

  /** `Tail` writes the profile's verification fields, or their defaults. */
  lemma TailVerifiedFields(d: Record, statuses: Value, followers: Value, follows: Value, info: map<string, Value>)
    ensures var r := Tail(d, statuses, followers, follows, info);
      && r.Get(Verified) == Some(GetOr(info, "verified", Bool(false)))
      && r.Get(VerifiedType) == Some(GetOr(info, "verified_type", Int(-1)))
      && r.Get(VerifiedReason) == Some(GetOr(info, "verified_reason", Str("")))
  {
    var tail := TailEntries(statuses, followers, follows, info);
    PutAllLast(d, tail, 9);
    PutAllLast(d, tail, 10);
    PutAllLast(d, tail, 11);
  }

  lemma RecordValid(uid: string, info: map<string, Value>, ext: ExtendedInfo)
    requires Unsanitized(uid, info, ext).Some?
    ensures InOrder(Unsanitized(uid, info, ext).value, FieldCount)
    ensures Unsanitized(uid, info, ext).value.Valid()
  {
    MergedFields(uid, info, ext);
    var merged := Merged(uid, info, ext);
    var statuses := StringToInt(GetOr(info, "statuses_count", Int(0))).value;
    var followers := StringToInt(GetOr(info, "followers_count", Int(0))).value;
    var follows := StringToInt(GetOr(info, "follow_count", Int(0))).value;
    TailKeys(merged, statuses, followers, follows, info);
    InOrderValid(Tail(merged, statuses, followers, follows, info), FieldCount);
  }

  /** The last card that maps to a field decides its value. */
  lemma {:induction false} MergeLastWins(d: Record, cards: seq<Card>, j: nat)
    requires j < |cards| && FieldOf(cards[j].itemName).Some?
    requires forall l :: j < l < |cards| ==> FieldOf(cards[l].itemName) != FieldOf(cards[j].itemName)
    ensures FieldOf(cards[j].itemName).value in MergeSpec(d, cards).vals
    ensures MergeSpec(d, cards).vals[FieldOf(cards[j].itemName).value] == ContentOf(cards[j])
    decreases |cards|
  {
    if j < |cards| - 1 {
      var init := cards[..|cards| - 1];
      assert init[j] == cards[j];
      forall l | j < l < |init| ensures FieldOf(init[l].itemName) != FieldOf(init[j].itemName) {
        assert init[l] == cards[l];
      }
      MergeLastWins(d, init, j);
    }
  }

  /** A field no card maps to keeps its value, or stays absent. */
  lemma {:induction false} MergeUntouched(d: Record, cards: seq<Card>, f: Field)
    requires forall l :: 0 <= l < |cards| ==> FieldOf(cards[l].itemName) != Some(f)
    ensures MergeSpec(d, cards).Get(f) == d.Get(f)
    decreases |cards|
  {
    if cards != [] {
      var init := cards[..|cards| - 1];
      forall l | 0 <= l < |init| ensures FieldOf(init[l].itemName) != Some(f) {
        assert init[l] == cards[l];
      }
      MergeUntouched(d, init, f);
    }
  }

  /** The cleared fields sit at positions 3 to 8. */
  lemma EnListPositions()
    ensures forall f :: f in EnList ==> 3 <= f.Position() < 9
  {
  }

  /** Neither the clearing nor the merge touches `id`, `screen_name` or
      `gender`. */
  lemma HeadKept(d: Record, cards: seq<Card>, f: Field)
    requires f.Position() < 3
    ensures PutEach(d, EnList, Str("")).Get(f) == d.Get(f)
    ensures MergeSpec(d, cards).Get(f) == d.Get(f)
  {
    EnListPositions();
    MergeUntouched(d, cards, f);
  }

  /** The merged record holds the first nine fields in order, with the
      head fields as given. */
  lemma MergedFields(uid: string, info: map<string, Value>, ext: ExtendedInfo)
    ensures InOrder(Merged(uid, info, ext), 9)
    ensures var m := Merged(uid, info, ext);
      && m.Get(Id) == Some(Str(uid))
      && m.Get(ScreenName) == Some(GetOr(info, "screen_name", Str("")))
      && m.Get(Gender) == Some(GetOr(info, "gender", Str("")))
  {
    HeadKeys(uid, info);
    ClearedKeys(Head(uid, info));
    var head := Head(uid, info);
    var cleared := PutEach(head, EnList, Str(""));
    MergeInOrder(cleared, CardList(ext));
    HeadKept(head, [], Id);
    HeadKept(head, [], ScreenName);
    HeadKept(head, [], Gender);
    HeadKept(cleared, CardList(ext), Id);
    HeadKept(cleared, CardList(ext), ScreenName);
    HeadKept(cleared, CardList(ext), Gender);
  }

  /** The three counters, parsed. */
  function Counters(info: map<string, Value>): (Option<Value>, Option<Value>, Option<Value>) {
    (StringToInt(GetOr(info, "statuses_count", Int(0))),
     StringToInt(GetOr(info, "followers_count", Int(0))),
     StringToInt(GetOr(info, "follow_count", Int(0))))
  }

  /** The record is built exactly when all three counters parse; it then
      holds all fields in order, the first nine as merged, the counters as
      `string_to_int` returns them and the rest as the profile gives them or
      their defaults. */
  lemma UnsanitizedFields(uid: string, info: map<string, Value>, ext: ExtendedInfo)
    ensures Unsanitized(uid, info, ext).Some? <==>
      Counters(info).0.Some? && Counters(info).1.Some? && Counters(info).2.Some?
    ensures Unsanitized(uid, info, ext).Some? ==> InOrder(Unsanitized(uid, info, ext).value, FieldCount)
    ensures Unsanitized(uid, info, ext).Some? ==> var r := Unsanitized(uid, info, ext).value;
      && (forall f: Field :: f.Position() < 9 ==> r.Get(f) == Merged(uid, info, ext).Get(f))
      && r.Get(StatusesCount) == Counters(info).0
      && r.Get(FollowersCount) == Counters(info).1
      && r.Get(FollowCount) == Counters(info).2
      && r.Get(Description) == Some(GetOr(info, "description", Str("")))
      && r.Get(ProfileUrl) == Some(GetOr(info, "profile_url", Str("")))
      && r.Get(ProfileImageUrl) == Some(GetOr(info, "profile_image_url", Str("")))
      && r.Get(AvatarHd) == Some(GetOr(info, "avatar_hd", Str("")))
      && r.Get(Urank) == Some(GetOr(info, "urank", Int(0)))
      && r.Get(Mbrank) == Some(GetOr(info, "mbrank", Int(0)))
      && r.Get(Verified) == Some(GetOr(info, "verified", Bool(false)))
      && r.Get(VerifiedType) == Some(GetOr(info, "verified_type", Int(-1)))
      && r.Get(VerifiedReason) == Some(GetOr(info, "verified_reason", Str("")))
  {
    if Unsanitized(uid, info, ext).Some? {
      var merged := Merged(uid, info, ext);
      MergedFields(uid, info, ext);
      var statuses := Counters(info).0.value;
      var followers := Counters(info).1.value;
      var follows := Counters(info).2.value;
      TailKeys(merged, statuses, followers, follows, info);
      TailKeeps(merged, statuses, followers, follows, info);
      TailCounters(merged, statuses, followers, follows, info);
      TailTextFields(merged, statuses, followers, follows, info);
      TailRankFields(merged, statuses, followers, follows, info);
      TailVerifiedFields(merged, statuses, followers, follows, info);
    }
  }

  // ---------------------------------------------------------------------
  // The record `get_user_info` stores

  /** A stored record holds the twenty-one keys in order, and no string in
      it holds a character the cleaning drops. */
  lemma BuildKeys(uid: string, info: map<string, Value>, ext: ExtendedInfo, encodable: char -> bool)
    requires BuildSpec(uid, info, ext, encodable).Some?
    ensures BuildSpec(uid, info, ext, encodable).value.Valid()
    ensures BuildSpec(uid, info, ext, encodable).value.keys == RecordKeys()
    ensures Sanitized(BuildSpec(uid, info, ext, encodable).value, encodable)
  {
    RecordValid(uid, info, ext);
    InOrderKeys(Unsanitized(uid, info, ext).value);
  }

  /** The stored id, name and gender are the cleaned uid and profile values. */
  lemma BuildHeadFields(uid: string, info: map<string, Value>, ext: ExtendedInfo, encodable: char -> bool)
    requires BuildSpec(uid, info, ext, encodable).Some?
    ensures var r := BuildSpec(uid, info, ext, encodable).value;
      && r.Get(Id) == Some(Str(Clean(uid, encodable)))
      && r.Get(ScreenName) == CleanValue(GetOr(info, "screen_name", Str("")), encodable)
      && r.Get(Gender) == CleanValue(GetOr(info, "gender", Str("")), encodable)
  {
    UnsanitizedFields(uid, info, ext);
    MergedFields(uid, info, ext);
    var raw := Unsanitized(uid, info, ext).value;
    StandardizeGet(raw, encodable, Id);
    StandardizeGet(raw, encodable, ScreenName);
    StandardizeGet(raw, encodable, Gender);
  }

  /** The stored counters are what `string_to_int` returns: integers (or
      booleans passed through), untouched by the cleaning. */
  lemma BuildCounters(uid: string, info: map<string, Value>, ext: ExtendedInfo, encodable: char -> bool)
    requires BuildSpec(uid, info, ext, encodable).Some?
    ensures var r := BuildSpec(uid, info, ext, encodable).value;
      && r.Get(StatusesCount) == Counters(info).0
      && r.Get(FollowersCount) == Counters(info).1
      && r.Get(FollowCount) == Counters(info).2
  {
    UnsanitizedFields(uid, info, ext);
    var raw := Unsanitized(uid, info, ext).value;
    StandardizeGet(raw, encodable, StatusesCount);
    StandardizeGet(raw, encodable, FollowersCount);
    StandardizeGet(raw, encodable, FollowCount);
  }

  /** The nine later fields are the cleaned profile values, or defaults. */
  lemma BuildProfileFields(uid: string, info: map<string, Value>, ext: ExtendedInfo, encodable: char -> bool)
    requires BuildSpec(uid, info, ext, encodable).Some?
    ensures var r := BuildSpec(uid, info, ext, encodable).value;
      && r.Get(Description) == CleanValue(GetOr(info, "description", Str("")), encodable)
      && r.Get(ProfileUrl) == CleanValue(GetOr(info, "profile_url", Str("")), encodable)
      && r.Get(ProfileImageUrl) == CleanValue(GetOr(info, "profile_image_url", Str("")), encodable)
      && r.Get(AvatarHd) == CleanValue(GetOr(info, "avatar_hd", Str("")), encodable)
      && r.Get(Urank) == CleanValue(GetOr(info, "urank", Int(0)), encodable)
      && r.Get(Mbrank) == CleanValue(GetOr(info, "mbrank", Int(0)), encodable)
      && r.Get(Verified) == CleanValue(GetOr(info, "verified", Bool(false)), encodable)
      && r.Get(VerifiedType) == CleanValue(GetOr(info, "verified_type", Int(-1)), encodable)
      && r.Get(VerifiedReason) == CleanValue(GetOr(info, "verified_reason", Str("")), encodable)
  {
    UnsanitizedFields(uid, info, ext);
    var raw := Unsanitized(uid, info, ext).value;
    StandardizeGet(raw, encodable, Description);
    StandardizeGet(raw, encodable, ProfileUrl);
    StandardizeGet(raw, encodable, ProfileImageUrl);
    StandardizeGet(raw, encodable, AvatarHd);
    StandardizeGet(raw, encodable, Urank);
    StandardizeGet(raw, encodable, Mbrank);
    StandardizeGet(raw, encodable, Verified);
    StandardizeGet(raw, encodable, VerifiedType);
    StandardizeGet(raw, encodable, VerifiedReason);
  }

  /** Of the cards naming a field, the last one decides the stored value. */
  lemma BuildExtendedLast(uid: string, info: map<string, Value>, ext: ExtendedInfo, encodable: char -> bool, j: nat)
    requires BuildSpec(uid, info, ext, encodable).Some?
    requires j < |CardList(ext)| && FieldOf(CardList(ext)[j].itemName).Some?
    requires forall l :: j < l < |CardList(ext)| ==>
      FieldOf(CardList(ext)[l].itemName) != FieldOf(CardList(ext)[j].itemName)
    ensures BuildSpec(uid, info, ext, encodable).value.Get(FieldOf(CardList(ext)[j].itemName).value)
      == CleanValue(ContentOf(CardList(ext)[j]), encodable)
  {
    var cards := CardList(ext);
    var f := FieldOf(cards[j].itemName).value;
    EnListPositions();
    UnsanitizedFields(uid, info, ext);
    MergeLastWins(PutEach(Head(uid, info), EnList, Str("")), cards, j);
    StandardizeGet(Unsanitized(uid, info, ext).value, encodable, f);
  }

  /** A field of the extended info that no card names is stored empty. */
  lemma BuildExtendedUnset(uid: string, info: map<string, Value>, ext: ExtendedInfo, encodable: char -> bool, f: Field)
    requires BuildSpec(uid, info, ext, encodable).Some?
    requires f in EnList
    requires forall l :: 0 <= l < |CardList(ext)| ==> FieldOf(CardList(ext)[l].itemName) != Some(f)
    ensures BuildSpec(uid, info, ext, encodable).value.Get(f) == Some(Str(""))
  {
    EnListPositions();
    UnsanitizedFields(uid, info, ext);
    MergeUntouched(PutEach(Head(uid, info), EnList, Str("")), CardList(ext), f);
    StandardizeGet(Unsanitized(uid, info, ext).value, encodable, f);
    assert Clean("", encodable) == "";
  }

  /** No value of the record is one `standardize_info` raises on. */
  ghost predicate NoOther(d: Record) {
    forall k :: k in d.vals ==> !d.vals[k].Other?
  }

  /** The profile values the record copies, other than the counters: none
      is one `standardize_info` raises on. The profile's other keys are
      never read. */
  ghost predicate CopiedNoOther(info: map<string, Value>) {
    && !GetOr(info, "screen_name", Str("")).Other?
    && !GetOr(info, "gender", Str("")).Other?
    && !GetOr(info, "description", Str("")).Other?
    && !GetOr(info, "profile_url", Str("")).Other?
    && !GetOr(info, "profile_image_url", Str("")).Other?
    && !GetOr(info, "avatar_hd", Str("")).Other?
    && !GetOr(info, "urank", Int(0)).Other?
    && !GetOr(info, "mbrank", Int(0)).Other?
    && !GetOr(info, "verified", Bool(false)).Other?
    && !GetOr(info, "verified_type", Int(-1)).Other?
    && !GetOr(info, "verified_reason", Str("")).Other?
  }

  /** The card that decides a field, the last one naming it, holds no value
      `standardize_info` raises on; earlier cards are overwritten. */
  ghost predicate DecidingCardsNoOther(cards: seq<Card>) {
    forall l ::
      (&& 0 <= l < |cards|
       && FieldOf(cards[l].itemName).Some?
       && (forall m :: l < m < |cards| ==> FieldOf(cards[m].itemName) != FieldOf(cards[l].itemName)))
      ==> !ContentOf(cards[l]).Other?
  }

  /** Of the cards naming `f`, one is the last. */
  lemma {:induction false} LastNamed(cards: seq<Card>, f: Field, l: nat) returns (j: nat)
    requires l < |cards| && FieldOf(cards[l].itemName) == Some(f)
    ensures l <= j < |cards| && FieldOf(cards[j].itemName) == Some(f)
    ensures forall m :: j < m < |cards| ==> FieldOf(cards[m].itemName) != Some(f)
    decreases |cards| - l
  {
    if forall m :: l < m < |cards| ==> FieldOf(cards[m].itemName) != Some(f) {
      j := l;
    } else {
      var m :| l < m < |cards| && FieldOf(cards[m].itemName) == Some(f);
      j := LastNamed(cards, f, m);
    }
  }

  /** After the merge, a field holds what its deciding card says, or what it
      held before. */
  lemma MergeKeyNoOther(d: Record, cards: seq<Card>, k: Field)
    requires NoOther(d) && DecidingCardsNoOther(cards)
    requires k in MergeSpec(d, cards).vals
    ensures !MergeSpec(d, cards).vals[k].Other?
  {
    if l :| 0 <= l < |cards| && FieldOf(cards[l].itemName) == Some(k) {
      var j := LastNamed(cards, k, l);
      MergeLastWins(d, cards, j);
    } else {
      MergeUntouched(d, cards, k);
    }
  }

  /** The merge writes only what the deciding cards hold. */
  lemma MergeNoOther(d: Record, cards: seq<Card>)
    requires NoOther(d) && DecidingCardsNoOther(cards)
    ensures NoOther(MergeSpec(d, cards))
  {
    forall k | k in MergeSpec(d, cards).vals ensures !MergeSpec(d, cards).vals[k].Other? {
      MergeKeyNoOther(d, cards, k);
    }
  }

  const NotOther: Value -> bool := (v: Value) => !v.Other?

  /** The profile's text fields are copied, so none is such a value. */
  lemma TextEntriesNoOther(info: map<string, Value>)
    requires CopiedNoOther(info)
    ensures var t := TextEntries(info);
      NotOther(t[0].1) && NotOther(t[1].1) && NotOther(t[2].1) && NotOther(t[3].1)
  {
  }

  /** Nor are the ranks and verification fields. */
  lemma RankEntriesNoOther(info: map<string, Value>)
    requires CopiedNoOther(info)
    ensures var k := RankEntries(info);
      NotOther(k[0].1) && NotOther(k[1].1) && NotOther(k[2].1) && NotOther(k[3].1) && NotOther(k[4].1)
  {
  }

  /** Without such values in the copied profile fields, the merged record
      and the counters, the finished record has none either. */
  lemma TailNoOther(d: Record, statuses: Value, followers: Value, follows: Value, info: map<string, Value>)
    requires NoOther(d)
    requires CopiedNoOther(info)
    requires !statuses.Other? && !followers.Other? && !follows.Other?
    ensures NoOther(Tail(d, statuses, followers, follows, info))
  {
    var c := CounterEntries(statuses, followers, follows);
    var t := TextEntries(info);
    var k := RankEntries(info);
    TextEntriesNoOther(info);
    RankEntriesNoOther(info);
    var e := TailEntries(statuses, followers, follows, info);
    assert e == c + t + k;
    assert forall i :: 0 <= i < |e| ==> NotOther(e[i].1) by {
      forall i | 0 <= i < |e| ensures NotOther(e[i].1) {
        if i < 3 { assert e[i] == c[i]; }
        else if i < 7 { assert e[i] == t[i - 3]; }
        else { assert e[i] == k[i - 7]; }
      }
    }
    PutAllKeeps(d, e, NotOther);
  }

  /** Without such values in the profile and the cards, the merged record
      has none. */
  lemma MergedNoOther(uid: string, info: map<string, Value>, ext: ExtendedInfo)
    requires CopiedNoOther(info)
    requires DecidingCardsNoOther(CardList(ext))
    ensures NoOther(Merged(uid, info, ext))
  {
    var e := HeadEntries(uid, info);
    assert forall i :: 0 <= i < |e| ==> NotOther(e[i].1);
    PutAllKeeps(Empty(), e, NotOther);
    var head := Head(uid, info);
    PutEachKeeps(head, EnList, Str(""), NotOther);
    MergeNoOther(PutEach(head, EnList, Str("")), CardList(ext));
  }

  /** A counter `string_to_int` cannot parse makes building the record raise. */
  lemma BuildRaisesOnCounter(uid: string, info: map<string, Value>, ext: ExtendedInfo, encodable: char -> bool)
    requires Counters(info).0.None? || Counters(info).1.None? || Counters(info).2.None?
    ensures BuildSpec(uid, info, ext, encodable).None?
  {
    UnsanitizedFields(uid, info, ext);
  }

  /** The profile values the record copies are those it stores. */
  lemma CopiedStored(uid: string, info: map<string, Value>, ext: ExtendedInfo)
    requires Unsanitized(uid, info, ext).Some?
    requires NoOther(Unsanitized(uid, info, ext).value)
    ensures CopiedNoOther(info)
  {
    UnsanitizedFields(uid, info, ext);
    MergedFields(uid, info, ext);
  }

  /** A deciding card's content is what a record agreeing with the merge
      on the first nine fields stores. */
  lemma DecidingCardStored(cleared: Record, cards: seq<Card>, raw: Record, l: nat)
    requires forall f: Field :: f.Position() < 9 ==> raw.Get(f) == MergeSpec(cleared, cards).Get(f)
    requires NoOther(raw)
    requires l < |cards| && FieldOf(cards[l].itemName).Some?
    requires forall m :: l < m < |cards| ==> FieldOf(cards[m].itemName) != FieldOf(cards[l].itemName)
    ensures !ContentOf(cards[l]).Other?
  {
    EnListPositions();
    MergeLastWins(cleared, cards, l);
    assert raw.Get(FieldOf(cards[l].itemName).value) == Some(ContentOf(cards[l]));
  }

  /** The deciding cards' contents are those the record stores. */
  lemma DecidingStored(uid: string, info: map<string, Value>, ext: ExtendedInfo)
    requires Unsanitized(uid, info, ext).Some?
    requires NoOther(Unsanitized(uid, info, ext).value)
    ensures DecidingCardsNoOther(CardList(ext))
  {
    UnsanitizedFields(uid, info, ext);
    var raw := Unsanitized(uid, info, ext).value;
    var cards := CardList(ext);
    var cleared := PutEach(Head(uid, info), EnList, Str(""));
    assert Merged(uid, info, ext) == MergeSpec(cleared, cards);
    forall l | 0 <= l < |cards| && FieldOf(cards[l].itemName).Some? &&
      (forall m :: l < m < |cards| ==> FieldOf(cards[m].itemName) != FieldOf(cards[l].itemName))
      ensures !ContentOf(cards[l]).Other?
    {
      DecidingCardStored(cleared, cards, raw, l);
    }
  }

  /** A stored record means the counters parsed and nothing the record
      copies is a value `standardize_info` raises on. */
  lemma BuildSucceedsOnlyIf(uid: string, info: map<string, Value>, ext: ExtendedInfo, encodable: char -> bool)
    requires BuildSpec(uid, info, ext, encodable).Some?
    ensures Counters(info).0.Some? && Counters(info).1.Some? && Counters(info).2.Some?
    ensures CopiedNoOther(info) && DecidingCardsNoOther(CardList(ext))
  {
    CopiedStored(uid, info, ext);
    DecidingStored(uid, info, ext);
  }

  /** Parsed counters and nothing to raise on give a stored record. */
  lemma BuildSucceedsIf(uid: string, info: map<string, Value>, ext: ExtendedInfo, encodable: char -> bool)
    requires Counters(info).0.Some? && Counters(info).1.Some? && Counters(info).2.Some?
    requires CopiedNoOther(info) && DecidingCardsNoOther(CardList(ext))
    ensures BuildSpec(uid, info, ext, encodable).Some?
  {
    MergedNoOther(uid, info, ext);
    var c := Counters(info);
    var raw := Tail(Merged(uid, info, ext), c.0.value, c.1.value, c.2.value, info);
    TailNoOther(Merged(uid, info, ext), c.0.value, c.1.value, c.2.value, info);
    assert Unsanitized(uid, info, ext) == Some(raw);
    assert StandardizeSpec(raw, encodable).Some?;
  }

  /** A record is stored exactly when the counters parse and no value the
      record copies, from the profile or from the card that decides a
      field, is one `standardize_info` raises on. */
  lemma BuildSucceeds(uid: string, info: map<string, Value>, ext: ExtendedInfo, encodable: char -> bool)
    ensures BuildSpec(uid, info, ext, encodable).Some? <==>
      && Counters(info).0.Some? && Counters(info).1.Some? && Counters(info).2.Some?
      && CopiedNoOther(info)
      && DecidingCardsNoOther(CardList(ext))
  {
    if BuildSpec(uid, info, ext, encodable).Some? {
      BuildSucceedsOnlyIf(uid, info, ext, encodable);
    }
    if Counters(info).0.Some? && Counters(info).1.Some? && Counters(info).2.Some? &&
       CopiedNoOther(info) && DecidingCardsNoOther(CardList(ext)) {
      BuildSucceedsIf(uid, info, ext, encodable);
    }
  }
}
