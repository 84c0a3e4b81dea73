/** The two layouts of scripts/archive_layout_convert.py, one channel at a time, and the gate before them. */
module Layouts {
  import opened Basics
  import opened Sorting

  /** A message as the layouts see it: the day its stamp gives, if any, and its rendered line. */
  datatype Message = Message(day: Option<nat>, line: string)

  /** 1970-01-01 as a day number: the days of the years before it, and one. */
  const EPOCH: nat := 719163

  lemma EpochIs()
    ensures EPOCH == 1969 * 365 + 1969 / 4 - 1969 / 100 + 1969 / 400 + 1
  {
  }

  /** A day file: the day in its name, the count in its header, its lines. */
  datatype DayFile = DayFile(day: nat, count: nat, messages: seq<Message>)

  const UNDATED: int := -1

  function Key(m: Message): int { if m.day.Some? then m.day.value else UNDATED }

  /** The messages with one key, in their order. */
  function OfKey(ms: seq<Message>, k: int): seq<Message> {
    if ms == [] then [] else (if Key(ms[0]) == k then [ms[0]] else []) + OfKey(ms[1..], k)
  }

  predicate Ascending(days: seq<nat>) {
    forall i, j :: 0 <= i < j < |days| ==> days[i] < days[j]
  }

  function DaysOf(files: seq<DayFile>): (days: seq<nat>)
    ensures |days| == |files|
  {
    seq(|files|, i requires 0 <= i < |files| => files[i].day)
  }

  /** What one file holds: its day's messages, behind the undated ones if it is the earliest. */
  predicate HoldsItsDay(ms: seq<Message>, files: seq<DayFile>, i: nat)
    requires i < |files|
  {
    && files[i].messages == (if i == 0 then OfKey(ms, UNDATED) else []) + OfKey(ms, files[i].day)
    && files[i].count == |files[i].messages|
  }

  /** A day has a file iff it has messages; the epoch also when no message has a day. */
  predicate HasFile(ms: seq<Message>, d: nat) {
    OfKey(ms, d) != [] || (d == EPOCH && ms != [] && NoneDated(ms))
  }

  predicate NoneDated(ms: seq<Message>) { forall i :: 0 <= i < |ms| ==> ms[i].day.None? }

  /** The day files of a channel in name order. */
  ghost predicate IsLayout(ms: seq<Message>, files: seq<DayFile>) {
    && Ascending(DaysOf(files))
    && (forall d: nat :: d in DaysOf(files) <==> HasFile(ms, d))
    && (forall i :: 0 <= i < |files| ==> HoldsItsDay(ms, files, i))
  }

  // ---- Writing the day files -----------------------------------------------------------------------

  lemma {:induction false} OfKeyConcat(a: seq<Message>, b: seq<Message>, k: int)
    ensures OfKey(a + b, k) == OfKey(a, k) + OfKey(b, k)
  {
    if a == [] {
      assert a + b == b;
    } else {
      OfKeyConcat(a[1..], b, k);
      TailOfConcat(a, b);
      Assoc(if Key(a[0]) == k then [a[0]] else [], OfKey(a[1..], k), OfKey(b, k));
    }
  }

  lemma OfKeyNext(ms: seq<Message>, i: nat, k: int)
    requires i < |ms|
    ensures OfKey(ms[..i + 1], k) == if Key(ms[i]) == k then OfKey(ms[..i], k) + [ms[i]] else OfKey(ms[..i], k)
  {
    assert ms[..i + 1] == ms[..i] + [ms[i]];
    OfKeyConcat(ms[..i], [ms[i]], k);
  }

  lemma {:induction false} OfKeyMembers(ms: seq<Message>, k: int)
    ensures forall m :: m in OfKey(ms, k) <==> m in ms && Key(m) == k
  {
    if ms != [] {
      OfKeyMembers(ms[1..], k);
    }
  }

  method Gather(ms: seq<Message>) returns (byDay: map<nat, seq<Message>>, undated: seq<Message>)
    ensures undated == OfKey(ms, UNDATED)
    ensures forall d: nat :: d in byDay <==> OfKey(ms, d) != []
    ensures forall d :: d in byDay ==> byDay[d] == OfKey(ms, d)
  {
    hide OfKey;
    byDay, undated := map[], [];
    NothingOfAnyKey();
    assert ms[..0] == [];
    for i := 0 to |ms|
      invariant undated == OfKey(ms[..i], UNDATED)
      invariant forall d: nat :: d in byDay <==> OfKey(ms[..i], d) != []
      invariant forall d :: d in byDay ==> byDay[d] == OfKey(ms[..i], d)
    {
      forall k ensures
        OfKey(ms[..i + 1], k) == if Key(ms[i]) == k then OfKey(ms[..i], k) + [ms[i]] else OfKey(ms[..i], k)
      {
        OfKeyNext(ms, i, k);
      }
      match ms[i].day
      case None => undated := undated + [ms[i]];
      case Some(d) => byDay := byDay[d := (if d in byDay then byDay[d] else []) + [ms[i]]];
    }
    assert ms[..|ms|] == ms;
  }

  lemma NothingOfAnyKey()
    ensures forall k :: OfKey([], k) == []
  {
  }

  predicate NotLater(a: nat, b: nat) { a <= b }

  lemma NotLaterIsOrder()
    ensures IsOrder(NotLater)
  {
  }

  /** Days in order, none of them twice, ascend. */
  lemma OrderedAscends(days: seq<nat>)
    requires Ordered(days, NotLater) && forall d :: multiset(days)[d] <= 1
    ensures Ascending(days)
  {
    forall i, j | 0 <= i < j < |days| ensures days[i] < days[j] {
      if days[i] == days[j] {
        TwiceThere(days, i, j);
      }
      assert NotLater(days[i], days[j]);
    }
  }

  lemma TwiceThere(days: seq<nat>, i: nat, j: nat)
    requires i < j < |days| && days[i] == days[j]
    ensures multiset(days)[days[i]] >= 2
  {
    assert days == days[..j] + days[j..];
    assert days[i] in days[..j] && days[j] in days[j..];
  }

  /** `sorted(by_day)`. */
  method SortedDays(byDay: map<nat, seq<Message>>) returns (days: seq<nat>)
    ensures Ascending(days)
    ensures forall d :: d in days <==> d in byDay
  {
    days := [];
    var left := byDay.Keys;
    while left != {}
      invariant left <= byDay.Keys
      invariant Ordered(days, NotLater)
      invariant forall d :: multiset(days)[d] == if d in byDay && d !in left then 1 else 0
      decreases |left|
    {
      var d :| d in left;
      NotLaterIsOrder();
      InsertOrders(days, d, NotLater);
      InsertKeeps(days, d, NotLater);
      hide Insert, Ordered;
      days := Insert(days, d, NotLater);
      left := left - {d};
    }
    OrderedAscends(days);
    assert forall d :: d in days <==> d in multiset(days);
  }

  lemma DatedIffKeyed(ms: seq<Message>)
    ensures NoneDated(ms) <==> forall d: nat :: OfKey(ms, d) == []
    ensures ms != [] && NoneDated(ms) ==> OfKey(ms, UNDATED) != []
    ensures OfKey(ms, UNDATED) == [] && ms != [] ==> !NoneDated(ms)
  {
    hide OfKey;
    forall k: int ensures forall m :: m in OfKey(ms, k) <==> m in ms && Key(m) == k {
      OfKeyMembers(ms, k);
    }
    if !NoneDated(ms) {
      var i :| 0 <= i < |ms| && ms[i].day.Some?;
      assert ms[i] in OfKey(ms, ms[i].day.value);
    }
    if ms != [] && NoneDated(ms) {
      assert ms[0] in OfKey(ms, UNDATED);
    }
    if d: nat :| OfKey(ms, d) != [] {
      assert OfKey(ms, d)[0] in OfKey(ms, d);
    }
  }

  predicate Earliest(byDay: map<nat, seq<Message>>, d: nat) { forall x :: x in byDay ==> d <= x }

  /** What the map of days holds once the undated messages are in it. */
  ghost predicate IsPlaced(ms: seq<Message>, placed: map<nat, seq<Message>>) {
    && (forall d: nat :: d in placed <==> HasFile(ms, d))
    && (forall d :: d in placed ==> placed[d] == (if Earliest(placed, d) then OfKey(ms, UNDATED) else []) + OfKey(ms, d))
  }

  lemma NoUndated(ms: seq<Message>, byDay: map<nat, seq<Message>>)
    requires OfKey(ms, UNDATED) == []
    requires forall d: nat :: d in byDay <==> OfKey(ms, d) != []
    requires forall d :: d in byDay ==> byDay[d] == OfKey(ms, d)
    ensures IsPlaced(ms, byDay)
  {
    hide OfKey, NoneDated, Earliest;
    DatedIffKeyed(ms);
  }

  lemma OnlyUndated(ms: seq<Message>, placed: map<nat, seq<Message>>)
    requires OfKey(ms, UNDATED) != [] && forall d: nat :: OfKey(ms, d) == []
    requires placed == map[EPOCH := OfKey(ms, UNDATED)]
    ensures IsPlaced(ms, placed)
  {
    hide OfKey, NoneDated;
    DatedIffKeyed(ms);
    NothingOfAnyKey();
  }

  lemma OnlyEarliest(byDay: map<nat, seq<Message>>, placed: map<nat, seq<Message>>, target: nat)
    requires target in byDay && Earliest(byDay, target) && placed.Keys == byDay.Keys
    ensures forall d :: d in placed ==> (Earliest(placed, d) <==> d == target)
  {
    forall d | d in placed ensures Earliest(placed, d) <==> d == target {
      assert target in placed;
    }
  }

  lemma UndatedFirst(ms: seq<Message>, byDay: map<nat, seq<Message>>, target: nat)
    requires forall d: nat :: d in byDay <==> OfKey(ms, d) != []
    requires forall d :: d in byDay ==> byDay[d] == OfKey(ms, d)
    requires target in byDay && Earliest(byDay, target)
    ensures IsPlaced(ms, byDay[target := OfKey(ms, UNDATED) + byDay[target]])
  {
    hide OfKey, NoneDated, Earliest;
    DatedIffKeyed(ms);
    var placed := byDay[target := OfKey(ms, UNDATED) + byDay[target]];
    assert placed.Keys == byDay.Keys;
    assert OfKey(ms, target) != [] && !NoneDated(ms);
    OnlyEarliest(byDay, placed, target);
  }

  /** The undated messages go in front of the earliest day, or to the epoch when there is none. */
  method PlaceUndated(ms: seq<Message>, byDay: map<nat, seq<Message>>, undated: seq<Message>)
    returns (placed: map<nat, seq<Message>>)
    requires undated == OfKey(ms, UNDATED)
    requires forall d: nat :: d in byDay <==> OfKey(ms, d) != []
    requires forall d :: d in byDay ==> byDay[d] == OfKey(ms, d)
    ensures IsPlaced(ms, placed)
  {
    hide OfKey, IsPlaced;
    placed := byDay;
    if undated == [] {
      NoUndated(ms, byDay);
    } else {
      var days := SortedDays(byDay);
      var target := if days == [] then EPOCH else days[0];
      placed := byDay[target := undated + (if target in byDay then byDay[target] else [])];
      if days == [] {
        assert byDay.Keys == {};
        assert undated + [] == undated;
        assert placed == map[EPOCH := undated];
        OnlyUndated(ms, placed);
      } else {
        assert forall x :: x in byDay ==> x in days && target <= x;
        UndatedFirst(ms, byDay, target);
      }
    }
  }

  lemma FilesAreLayout(ms: seq<Message>, placed: map<nat, seq<Message>>, days: seq<nat>, files: seq<DayFile>)
    requires IsPlaced(ms, placed) && Ascending(days) && forall d :: d in days <==> d in placed
    requires |files| == |days|
    requires forall j :: 0 <= j < |days| ==> files[j] == DayFile(days[j], |placed[days[j]]|, placed[days[j]])
    ensures IsLayout(ms, files)
  {
    hide OfKey, HasFile;
    assert DaysOf(files) == days;
    forall i | 0 <= i < |files| ensures HoldsItsDay(ms, files, i) {
      assert days[i] in placed && days[0] in placed;
      assert Earliest(placed, days[i]) <==> i == 0;
    }
  }

  /** One channel written as day files. */
  method EmitB(ms: seq<Message>) returns (files: seq<DayFile>)
    ensures IsLayout(ms, files)
  {
    hide IsLayout, IsPlaced, Ascending, OfKey;
    var byDay, undated := Gather(ms);
    byDay := PlaceUndated(ms, byDay, undated);
    var days := SortedDays(byDay);
    files := [];
    for i := 0 to |days|
      invariant |files| == i
      invariant forall j :: 0 <= j < i ==> files[j] == DayFile(days[j], |byDay[days[j]]|, byDay[days[j]])
    {
      files := files + [DayFile(days[i], |byDay[days[i]]|, byDay[days[i]])];
    }
    FilesAreLayout(ms, byDay, days, files);
  }

  // ---- Reading the day files back --------------------------------------------------------------------

  /** A channel's files read in name order. */
  function Read(files: seq<DayFile>): seq<Message> {
    if files == [] then [] else files[0].messages + Read(files[1..])
  }

  /** Undated messages first, then by day. */
  predicate InDayOrder(ms: seq<Message>) { forall i, j :: 0 <= i < j < |ms| ==> Key(ms[i]) <= Key(ms[j]) }

  /** `out` is `ms` stably sorted: ordered by key, and each key's messages in their own order. */
  ghost predicate StablySorted(ms: seq<Message>, out: seq<Message>) {
    InDayOrder(out) && forall k :: OfKey(out, k) == OfKey(ms, k)
  }

  function ReadDays(ms: seq<Message>, days: seq<nat>): seq<Message> {
    if days == [] then [] else OfKey(ms, days[0]) + ReadDays(ms, days[1..])
  }

  lemma {:induction false} OfKeyOfKey(ms: seq<Message>, d: int, k: int)
    ensures OfKey(OfKey(ms, d), k) == if k == d then OfKey(ms, d) else []
  {
    if ms != [] {
      OfKeyOfKey(ms[1..], d, k);
      OfKeyConcat(if Key(ms[0]) == d then [ms[0]] else [], OfKey(ms[1..], d), k);
    }
  }

  lemma {:induction false} ReadDaysFilters(ms: seq<Message>, days: seq<nat>, k: int)
    requires Ascending(days)
    ensures OfKey(ReadDays(ms, days), k) == if k in days then OfKey(ms, k) else []
  {
    hide OfKey;
    if days == [] {
      NothingOfAnyKey();
    } else {
      assert days == [days[0]] + days[1..];
      ReadDaysFilters(ms, days[1..], k);
      OfKeyConcat(OfKey(ms, days[0]), ReadDays(ms, days[1..]), k);
      OfKeyOfKey(ms, days[0], k);
    }
  }

  lemma {:induction false} ReadDaysOrdered(ms: seq<Message>, days: seq<nat>)
    requires Ascending(days)
    ensures InDayOrder(ReadDays(ms, days))
    ensures forall m :: m in ReadDays(ms, days) ==> Key(m) in days
  {
    hide OfKey;
    if days != [] {
      assert days == [days[0]] + days[1..];
      ReadDaysOrdered(ms, days[1..]);
      OfKeyMembers(ms, days[0]);
      OrderedConcat(OfKey(ms, days[0]), ReadDays(ms, days[1..]), days[0]);
    }
  }

  lemma OrderedConcat(a: seq<Message>, b: seq<Message>, k: int)
    requires forall m :: m in a ==> Key(m) == k
    requires InDayOrder(b) && forall m :: m in b ==> k <= Key(m)
    ensures InDayOrder(a + b)
  {
    hide Key;
  }

  lemma {:induction false} ReadIsByDay(ms: seq<Message>, files: seq<DayFile>)
    requires forall i :: 0 <= i < |files| ==> files[i].messages == OfKey(ms, files[i].day)
    ensures Read(files) == ReadDays(ms, DaysOf(files))
  {
    hide OfKey;
    if files != [] {
      ReadIsByDay(ms, files[1..]);
      assert DaysOf(files)[1..] == DaysOf(files[1..]);
    }
  }

  /** Read file by file, the lines are the undated ones and then each day's. */
  lemma LayoutReads(ms: seq<Message>, files: seq<DayFile>)
    requires IsLayout(ms, files)
    ensures Read(files) == OfKey(ms, UNDATED) + ReadDays(ms, DaysOf(files))
  {
    hide OfKey;
    if files == [] {
      NoFilesNoMessages(ms, files);
    } else {
      var days := DaysOf(files);
      assert days[1..] == DaysOf(files[1..]);
      forall i | 0 <= i < |files[1..]| ensures files[1..][i].messages == OfKey(ms, files[1..][i].day) {
        assert HoldsItsDay(ms, files, i + 1);
        assert [] + OfKey(ms, files[1..][i].day) == OfKey(ms, files[1..][i].day);
      }
      ReadIsByDay(ms, files[1..]);
      assert HoldsItsDay(ms, files, 0);
      Assoc(OfKey(ms, UNDATED), OfKey(ms, days[0]), ReadDays(ms, days[1..]));
    }
  }

  lemma NoFilesNoMessages(ms: seq<Message>, files: seq<DayFile>)
    requires IsLayout(ms, files) && files == []
    ensures ms == [] && OfKey(ms, UNDATED) == []
  {
    hide OfKey;
    DatedIffKeyed(ms);
    NothingOfAnyKey();
    forall d: nat ensures !HasFile(ms, d) && OfKey(ms, d) == [] {
      assert d !in DaysOf(files);
    }
    assert !HasFile(ms, EPOCH);
  }

  /**
   * Every message is in exactly one day file, and the files in date order give the stable sort:
   * undated messages first, then day by day, no two of a day exchanged.
   */
  lemma LayoutIsStableSort(ms: seq<Message>, files: seq<DayFile>)
    requires IsLayout(ms, files)
    ensures StablySorted(ms, Read(files))
  {
    hide OfKey, IsLayout, Ascending, InDayOrder, Read;
    var days := DaysOf(files);
    LayoutReads(ms, files);
    LayoutDays(ms, files);
    ReadDaysOrdered(ms, days);
    OfKeyMembers(ms, UNDATED);
    OrderedConcat(OfKey(ms, UNDATED), ReadDays(ms, days), UNDATED);
    forall k ensures OfKey(Read(files), k) == OfKey(ms, k) {
      OfKeyConcat(OfKey(ms, UNDATED), ReadDays(ms, days), k);
      OfKeyOfKey(ms, UNDATED, k);
      ReadDaysFilters(ms, days, k);
      NoOtherKeys(ms, k);
    }
  }

  lemma LayoutDays(ms: seq<Message>, files: seq<DayFile>)
    requires IsLayout(ms, files)
    ensures Ascending(DaysOf(files)) && forall d: nat :: d !in DaysOf(files) ==> OfKey(ms, d) == []
  {
  }

  lemma NoOtherKeys(ms: seq<Message>, k: int)
    ensures k < UNDATED ==> OfKey(ms, k) == []
  {
  }

  // ---- The two layouts compared ------------------------------------------------------------------------

  lemma {:induction false} SomethingOfItsKey(ms: seq<Message>, i: nat)
    requires i < |ms|
    ensures OfKey(ms, Key(ms[i])) != []
  {
    OfKeyMembers(ms, Key(ms[i]));
    assert ms[i] in OfKey(ms, Key(ms[i]));
  }

  lemma FirstOfItsKey(ms: seq<Message>)
    requires ms != []
    ensures OfKey(ms, Key(ms[0])) == [ms[0]] + OfKey(ms[1..], Key(ms[0]))
    ensures forall k :: k != Key(ms[0]) ==> OfKey(ms, k) == OfKey(ms[1..], k)
  {
  }

  lemma SmallestKeyLeads(a: seq<Message>, b: seq<Message>)
    requires InDayOrder(b) && a != [] && forall k :: OfKey(a, k) == OfKey(b, k)
    ensures b != [] && Key(b[0]) <= Key(a[0])
  {
    hide OfKey, Key;
    SomethingOfItsKey(a, 0);
    OfKeyMembers(b, Key(a[0]));
    var m := OfKey(b, Key(a[0]))[0];
    assert m in OfKey(b, Key(a[0]));
    var j :| 0 <= j < |b| && b[j] == m;
  }

  /** A stable sort is unique. */
  lemma {:induction false} StableSortIsUnique(a: seq<Message>, b: seq<Message>)
    requires InDayOrder(a) && InDayOrder(b) && forall k :: OfKey(a, k) == OfKey(b, k)
    ensures a == b
    decreases |a|
  {
    hide OfKey, Key;
    if a == [] {
      NothingOfAnyKey();
      if b != [] {
        SomethingOfItsKey(b, 0);
      }
    } else {
      SmallestKeyLeads(a, b);
      SmallestKeyLeads(b, a);
      FirstOfItsKey(a);
      FirstOfItsKey(b);
      var k := Key(a[0]);
      assert ([a[0]] + OfKey(a[1..], k))[0] == a[0] && ([b[0]] + OfKey(b[1..], k))[0] == b[0];
      assert ([a[0]] + OfKey(a[1..], k))[1..] == OfKey(a[1..], k) && ([b[0]] + OfKey(b[1..], k))[1..] == OfKey(b[1..], k);
      forall j ensures OfKey(a[1..], j) == OfKey(b[1..], j) {
        assert OfKey(a, j) == OfKey(b, j);
      }
      StableSortIsUnique(a[1..], b[1..]);
      assert a == [a[0]] + a[1..] && b == [b[0]] + b[1..];
    }
  }

  /** What the one-file layout writes for a channel: its lines in their own order. */
  function EmitA(ms: seq<Message>): seq<Message> { ms }

  /** The two layouts read the same exactly when the messages already were in day order. */
  lemma LayoutsAgreeIff(ms: seq<Message>, files: seq<DayFile>)
    requires IsLayout(ms, files)
    ensures Read(files) == EmitA(ms) <==> InDayOrder(ms)
  {
    hide IsLayout, OfKey, InDayOrder, Read;
    LayoutIsStableSort(ms, files);
    if InDayOrder(ms) {
      StableSortIsUnique(Read(files), ms);
    }
  }

  /** Two messages in the wrong order. */
  lemma LayoutsDiffer(files: seq<DayFile>)
    requires IsLayout([Message(Some(2), "b"), Message(Some(1), "a")], files)
    ensures Read(files) != EmitA([Message(Some(2), "b"), Message(Some(1), "a")])
  {
    var ms := [Message(Some(2), "b"), Message(Some(1), "a")];
    assert Key(ms[0]) == 2 && Key(ms[1]) == 1;
    LayoutsAgreeIff(ms, files);
  }

  function TotalCount(files: seq<DayFile>): nat {
    if files == [] then 0 else files[0].count + TotalCount(files[1..])
  }

  lemma {:induction false} CountsAreLengths(files: seq<DayFile>)
    requires forall i :: 0 <= i < |files| ==> files[i].count == |files[i].messages|
    ensures TotalCount(files) == |Read(files)|
  {
    if files != [] {
      CountsAreLengths(files[1..]);
    }
  }

  lemma {:induction false} Occurrences(ms: seq<Message>, m: Message)
    ensures multiset(ms)[m] == multiset(OfKey(ms, Key(m)))[m]
  {
    if ms != [] {
      Occurrences(ms[1..], m);
      assert ms == [ms[0]] + ms[1..];
    }
  }

  /** Nothing is lost or doubled, and the counts in the headers add up to the number of messages. */
  lemma CountsAddUp(ms: seq<Message>, files: seq<DayFile>)
    requires IsLayout(ms, files)
    ensures multiset(Read(files)) == multiset(ms)
    ensures TotalCount(files) == |ms|
  {
    hide OfKey, Key, Read, TotalCount, InDayOrder;
    LayoutIsStableSort(ms, files);
    forall i | 0 <= i < |files| ensures files[i].count == |files[i].messages| {
      assert HoldsItsDay(ms, files, i);
    }
    hide IsLayout;
    CountsAreLengths(files);
    forall m ensures multiset(Read(files))[m] == multiset(ms)[m] {
      Occurrences(Read(files), m);
      Occurrences(ms, m);
    }
    assert multiset(Read(files)) == multiset(ms);
    assert |multiset(Read(files))| == |multiset(ms)|;
  }

  // ---- The gate before writing --------------------------------------------------------------------------

  datatype Channel = Channel(workspace: string, id: string, name: string)

  /** A place, the name that had it first, and the name that wants it too. */
  datatype Clash = Clash(workspace: string, id: string, first: string, second: string)

  predicate SamePlace(a: Channel, b: Channel) { a.workspace == b.workspace && a.id == b.id }

  predicate TakenBefore(channels: seq<Channel>, j: nat)
    requires j < |channels|
  {
    exists i :: 0 <= i < j && SamePlace(channels[i], channels[j])
  }

  predicate Distinct(channels: seq<Channel>) {
    forall i, j :: 0 <= i < j < |channels| ==> !SamePlace(channels[i], channels[j])
  }

  /** The first channel with the place of the `j`-th. */
  function FirstAt(channels: seq<Channel>, j: nat, from: nat): (i: nat)
    requires from <= j < |channels|
    ensures from <= i <= j && SamePlace(channels[i], channels[j])
    ensures forall k :: from <= k < i ==> !SamePlace(channels[k], channels[j])
    decreases j - from
  {
    if SamePlace(channels[from], channels[j]) then from else FirstAt(channels, j, from + 1)
  }

  function FirstName(channels: seq<Channel>, j: nat): string
    requires j < |channels|
  {
    channels[FirstAt(channels, j, 0)].name
  }

  /** A clash for every channel among the first `n` whose place an earlier one has, with the name that had it first. */
  function Clashes(channels: seq<Channel>, n: nat): seq<Clash>
    requires n <= |channels|
  {
    if n == 0 then []
    else
      var c := channels[n - 1];
      Clashes(channels, n - 1)
      + (if TakenBefore(channels, n - 1)
         then [Clash(c.workspace, c.id, FirstName(channels, n - 1), c.name)] else [])
  }

  function Place(c: Channel): (string, string) { (c.workspace, c.id) }

  lemma SameFirst(channels: seq<Channel>, i: nat, j: nat)
    requires i <= j < |channels| && SamePlace(channels[i], channels[j])
    ensures FirstName(channels, i) == FirstName(channels, j)
  {
    var a, b := FirstAt(channels, i, 0), FirstAt(channels, j, 0);
    assert SamePlace(channels[a], channels[j]) && SamePlace(channels[b], channels[i]);
  }

  /** The places of the first `n` channels are there, each with the name that had it first. */
  ghost predicate HasPlaces(seen: map<(string, string), string>, channels: seq<Channel>, n: nat)
    requires n <= |channels|
  {
    forall i :: 0 <= i < n ==> Place(channels[i]) in seen && seen[Place(channels[i])] == FirstName(channels, i)
  }

  /** And no others. */
  ghost predicate OnlyPlaces(seen: map<(string, string), string>, channels: seq<Channel>, n: nat)
    requires n <= |channels|
  {
    forall k :: k in seen ==> exists i :: 0 <= i < n && Place(channels[i]) == k
  }

  lemma NotSeen(seen: map<(string, string), string>, channels: seq<Channel>, n: nat)
    requires n < |channels| && HasPlaces(seen, channels, n) && Place(channels[n]) !in seen
    ensures !TakenBefore(channels, n) && FirstName(channels, n) == channels[n].name
  {
    hide FirstName;
    forall i | 0 <= i < n ensures !SamePlace(channels[i], channels[n]) {
      assert Place(channels[i]) != Place(channels[n]);
    }
    OwnName(channels, n);
  }

  lemma OwnName(channels: seq<Channel>, n: nat)
    requires n < |channels| && forall i :: 0 <= i < n ==> !SamePlace(channels[i], channels[n])
    ensures FirstName(channels, n) == channels[n].name
  {
  }

  lemma PutPlace(seen: map<(string, string), string>, channels: seq<Channel>, n: nat)
    requires n < |channels| && HasPlaces(seen, channels, n) && Place(channels[n]) !in seen
    requires FirstName(channels, n) == channels[n].name
    ensures HasPlaces(seen[Place(channels[n]) := channels[n].name], channels, n + 1)
  {
    hide FirstName, Place;
    var now := seen[Place(channels[n]) := channels[n].name];
    forall i | 0 <= i < n + 1
      ensures Place(channels[i]) in now && now[Place(channels[i])] == FirstName(channels, i)
    {
      assert i < n ==> Place(channels[i]) in seen;
    }
  }

  lemma PutOnly(seen: map<(string, string), string>, channels: seq<Channel>, n: nat)
    requires n < |channels| && OnlyPlaces(seen, channels, n)
    ensures OnlyPlaces(seen[Place(channels[n]) := channels[n].name], channels, n + 1)
  {
    hide Place;
    var now := seen[Place(channels[n]) := channels[n].name];
    forall k | k in now ensures exists i :: 0 <= i < n + 1 && Place(channels[i]) == k {
      if k != Place(channels[n]) {
        var i :| 0 <= i < n && Place(channels[i]) == k;
      }
    }
  }

  lemma SeenAgain(seen: map<(string, string), string>, channels: seq<Channel>, n: nat)
    requires n < |channels| && HasPlaces(seen, channels, n) && OnlyPlaces(seen, channels, n) && Place(channels[n]) in seen
    ensures TakenBefore(channels, n) && seen[Place(channels[n])] == FirstName(channels, n)
    ensures HasPlaces(seen, channels, n + 1) && OnlyPlaces(seen, channels, n + 1)
  {
    hide FirstName;
    var i :| 0 <= i < n && Place(channels[i]) == Place(channels[n]);
    assert SamePlace(channels[i], channels[n]);
    SameFirst(channels, i, n);
  }

  method CheckUniqueIds(channels: seq<Channel>) returns (clashes: seq<Clash>)
    ensures clashes == Clashes(channels, |channels|)
  {
    hide HasPlaces, OnlyPlaces, FirstName, TakenBefore;
    var seen: map<(string, string), string> := map[];
    clashes := [];
    NoPlaces(channels);
    for j := 0 to |channels|
      invariant HasPlaces(seen, channels, j) && OnlyPlaces(seen, channels, j)
      invariant clashes == Clashes(channels, j)
    {
      var key := Place(channels[j]);
      if key !in seen {
        NotSeen(seen, channels, j);
        PutPlace(seen, channels, j);
        PutOnly(seen, channels, j);
        seen := seen[key := channels[j].name];
      } else {
        SeenAgain(seen, channels, j);
        if seen[key] != channels[j].name {
          clashes := clashes + [Clash(key.0, key.1, seen[key], channels[j].name)];
        } else {
          clashes := clashes + [Clash(key.0, key.1, seen[key], seen[key])];
        }
      }
    }
  }

  lemma NoPlaces(channels: seq<Channel>)
    ensures HasPlaces(map[], channels, 0) && OnlyPlaces(map[], channels, 0)
  {
  }

  /** The gate lets a batch through iff no two of its channels go to one place. */
  lemma {:induction false} GateOpensIff(channels: seq<Channel>, n: nat)
    requires n <= |channels|
    ensures Clashes(channels, n) == [] <==> Distinct(channels[..n])
  {
    hide SamePlace;
    if n > 0 {
      GateOpensIff(channels, n - 1);
      assert forall i :: 0 <= i < n - 1 ==> channels[..n][i] == channels[..n - 1][i];
      if Distinct(channels[..n]) {
        assert forall i, j :: 0 <= i < j < n - 1 ==> !SamePlace(channels[..n][i], channels[..n][j]);
        assert !TakenBefore(channels, n - 1);
      }
    }
  }
}
