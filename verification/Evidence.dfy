/** Evidence for one answer: the parts of src/tybot/answer.py that group it and fit it into a budget. */
module Evidence {
  import opened Sorting
  import opened StringOrder
  import opened Joining
  import opened Basics
  import Markdown

  /** A line that was found: where it is, and what it says. */
  datatype Hit = Hit(workspace: string, channel: string, path: string, lineno: int,
                     ts: string, speaker: string, text: string, source: string)

  type Key = (string, string)

  function KeyOf(h: Hit): Key { (h.workspace, h.channel) }

  // ---- Order inside a group ------------------------------------------------------------------------------

  predicate NotAfter(a: Hit, b: Hit) {
    Le(a.ts, b.ts) && (a.ts == b.ts ==> a.lineno <= b.lineno)
  }

  predicate Tied(a: Hit, b: Hit) { a.ts == b.ts && a.lineno == b.lineno }

  lemma NotAfterTotal(a: Hit, b: Hit)
    ensures NotAfter(a, b) || NotAfter(b, a)
    ensures NotAfter(a, b) && NotAfter(b, a) <==> Tied(a, b)
  {
    hide Le;
    LeTotal(a.ts, b.ts);
    LeTotal(a.ts, a.ts);
  }

  lemma NotAfterTrans(a: Hit, b: Hit, c: Hit)
    requires NotAfter(a, b) && NotAfter(b, c)
    ensures NotAfter(a, c)
  {
    hide Le;
    LeTrans(a.ts, b.ts, c.ts);
    LeTotal(a.ts, b.ts);
  }

  lemma NotAfterIsOrder()
    ensures IsOrder(NotAfter)
  {
    forall a, b ensures NotAfter(a, b) || NotAfter(b, a) {
      NotAfterTotal(a, b);
    }
    forall a, b, c | NotAfter(a, b) && NotAfter(b, c) ensures NotAfter(a, c) {
      NotAfterTrans(a, b, c);
    }
  }

  /** The hits tied with `like`, in their order. */
  function TiedWith(hits: seq<Hit>, like: Hit): seq<Hit> {
    if hits == [] then []
    else TiedWith(hits[..|hits| - 1], like) + (if Tied(hits[|hits| - 1], like) then [hits[|hits| - 1]] else [])
  }

  lemma TiedFromInsert(front: seq<Hit>, last: Hit, h: Hit, like: Hit)
    requires TiedWith(Insert(front, h, NotAfter), like) == TiedWith(front, like) + (if Tied(h, like) then [h] else [])
    requires !NotAfter(last, h)
    ensures TiedWith(Insert(front, h, NotAfter) + [last], like)
         == TiedWith(front, like) + (if Tied(last, like) then [last] else []) + (if Tied(h, like) then [h] else [])
  {
    NotAfterTotal(last, h);
    OrderSeparates(last, h, like);
    hide NotAfter, Tied, TiedWith, Insert;
    TiedSnoc(Insert(front, h, NotAfter), last, like);
  }

  lemma {:induction false} InsertStable(hits: seq<Hit>, h: Hit, like: Hit)
    ensures TiedWith(Insert(hits, h, NotAfter), like) == TiedWith(hits, like) + (if Tied(h, like) then [h] else [])
  {
    if hits == [] {
      TiedSnoc([], h, like);
    } else {
      hide NotAfter, Tied, TiedWith, Insert;
      var front, last := hits[..|hits| - 1], hits[|hits| - 1];
      assert hits == front + [last];
      InsertStep(front, last, h, NotAfter);
      TiedSnoc(front, last, like);
      if NotAfter(last, h) {
        TiedSnoc(hits, h, like);
      } else {
        InsertStable(front, h, like);
        TiedFromInsert(front, last, h, like);
      }
    }
  }

  lemma OrderSeparates(a: Hit, b: Hit, like: Hit)
    ensures Tied(a, like) && Tied(b, like) ==> Tied(a, b)
  {
  }

  lemma TiedSnoc(hits: seq<Hit>, last: Hit, like: Hit)
    ensures TiedWith(hits + [last], like) == TiedWith(hits, like) + (if Tied(last, like) then [last] else [])
  {
    assert (hits + [last])[..|hits + [last]| - 1] == hits;
  }

  /** `sorted` by stamp and line number keeps every hit, puts them in order, and leaves tied hits as they were. */
  lemma HitsSorted(hits: seq<Hit>)
    ensures Ordered(Sorted(hits, NotAfter), NotAfter) && multiset(Sorted(hits, NotAfter)) == multiset(hits)
    ensures forall like :: TiedWith(Sorted(hits, NotAfter), like) == TiedWith(hits, like)
  {
    NotAfterIsOrder();
    SortedSorts(hits, NotAfter);
    forall like ensures TiedWith(Sorted(hits, NotAfter), like) == TiedWith(hits, like) {
      SortIsStable(hits, like);
    }
  }

  lemma {:induction false} SortIsStable(hits: seq<Hit>, like: Hit)
    ensures TiedWith(Sorted(hits, NotAfter), like) == TiedWith(hits, like)
  {
    hide Insert, Tied, NotAfter;
    if hits != [] {
      var front, last := hits[..|hits| - 1], hits[|hits| - 1];
      SortIsStable(front, like);
      InsertStable(Sorted(front, NotAfter), last, like);
    }
  }

  // ---- Grouping ------------------------------------------------------------------------------------------

  datatype Citation = Citation(channel: string, workspace: string, source: string, date: string)

  datatype Part = Part(block: string, citations: seq<Citation>, hits: seq<Hit>)

  /** The first word of a stamp. */
  function FirstWord(s: string): string {
    var t := Markdown.TrimLeft(s);
    if t == "" then "" else UpToSpace(t)
  }

  function UpToSpace(s: string): string {
    if s == "" || Markdown.IsSpace(s[0]) then "" else [s[0]] + UpToSpace(s[1..])
  }

  /** A source is cited with its file and the day; a foreign workspace is named. */
  function CitationOf(own: string, h: Hit): Citation {
    Citation(h.channel, if h.workspace == own then "" else h.workspace,
             if h.source != "" then h.source else h.path, FirstWord(h.ts))
  }

  function CitationsOf(own: string, hits: seq<Hit>): seq<Citation> {
    if hits == [] then []
    else
      var front, last := CitationsOf(own, hits[..|hits| - 1]), CitationOf(own, hits[|hits| - 1]);
      if last in front then front else front + [last]
  }

  function Rendered(h: Hit): string { "[" + h.ts + "] " + h.speaker + ": " + h.text }

  function BodyOf(hits: seq<Hit>): string {
    if hits == [] then ""
    else (if |hits| == 1 then "" else BodyOf(hits[..|hits| - 1]) + "\n") + Rendered(hits[|hits| - 1])
  }

  function BlockOf(own: string, key: Key, hits: seq<Hit>): string {
    "### " + (if key.0 == own then "" else "[" + key.0 + "] ") + "채널 " + key.1 + "\n" + BodyOf(hits)
  }

  function OfKey(hits: seq<Hit>, key: Key): seq<Hit> {
    if hits == [] then []
    else OfKey(hits[..|hits| - 1], key) + (if KeyOf(hits[|hits| - 1]) == key then [hits[|hits| - 1]] else [])
  }

  /** The channels in the order they first appear. */
  function KeysOf(hits: seq<Hit>): seq<Key> {
    if hits == [] then []
    else
      var front, last := KeysOf(hits[..|hits| - 1]), KeyOf(hits[|hits| - 1]);
      if last in front then front else front + [last]
  }

  function PartOf(own: string, hits: seq<Hit>, key: Key): Part {
    var group := Sorted(OfKey(hits, key), NotAfter);
    Part(BlockOf(own, key, group), CitationsOf(own, group), group)
  }

  function PartsOf(own: string, hits: seq<Hit>): (parts: seq<Part>)
    ensures |parts| == |KeysOf(hits)|
  {
    seq(|KeysOf(hits)|, i requires 0 <= i < |KeysOf(hits)| => PartOf(own, hits, KeysOf(hits)[i]))
  }

  function AllCitations(parts: seq<Part>): seq<Citation> {
    if parts == [] then [] else AllCitations(parts[..|parts| - 1]) + parts[|parts| - 1].citations
  }

  function AllHits(parts: seq<Part>): seq<Hit> {
    if parts == [] then [] else AllHits(parts[..|parts| - 1]) + parts[|parts| - 1].hits
  }

  lemma KeysNext(hits: seq<Hit>, i: nat)
    requires i < |hits|
    ensures var key, keys := KeyOf(hits[i]), KeysOf(hits[..i]);
      KeysOf(hits[..i + 1]) == if key in keys then keys else keys + [key]
    ensures forall k ::
      OfKey(hits[..i + 1], k) == if KeyOf(hits[i]) == k then OfKey(hits[..i], k) + [hits[i]] else OfKey(hits[..i], k)
  {
    assert hits[..i + 1][..i] == hits[..i];
  }

  method Grouped(hits: seq<Hit>) returns (keys: seq<Key>, groups: map<Key, seq<Hit>>)
    ensures keys == KeysOf(hits)
    ensures forall k :: k in groups <==> k in keys
    ensures forall k :: k in keys ==> groups[k] == OfKey(hits, k)
  {
    hide OfKey, KeysOf;
    keys, groups := [], map[];
    NothingGrouped();
    assert hits[..0] == [];
    for i := 0 to |hits|
      invariant keys == KeysOf(hits[..i])
      invariant forall k :: k in groups <==> k in keys
      invariant forall k :: k in keys ==> groups[k] == OfKey(hits[..i], k)
      invariant forall k :: k !in keys ==> OfKey(hits[..i], k) == []
    {
      KeysNext(hits, i);
      var key := KeyOf(hits[i]);
      if key !in groups {
        keys := keys + [key];
        groups := groups[key := []];
      }
      groups := groups[key := groups[key] + [hits[i]]];
    }
    assert hits[..|hits|] == hits;
  }

  lemma NothingGrouped()
    ensures KeysOf([]) == [] && forall k :: OfKey([], k) == []
  {
  }

  method CiteGroup(own: string, group: seq<Hit>) returns (cited: seq<Citation>)
    ensures cited == CitationsOf(own, group)
  {
    hide CitationOf;
    cited := [];
    var seen: set<Citation> := {};
    for i := 0 to |group|
      invariant cited == CitationsOf(own, group[..i])
      invariant forall c :: c in seen <==> c in cited
    {
      assert group[..i + 1][..i] == group[..i];
      var c := CitationOf(own, group[i]);
      if c !in seen {
        seen := seen + {c};
        cited := cited + [c];
      }
    }
    assert group[..|group|] == group;
  }

  method BlocksFromHits(own: string, hits: seq<Hit>)
    returns (blocks: seq<string>, citations: seq<Citation>, parts: seq<Part>, total: nat)
    ensures parts == PartsOf(own, hits)
    ensures |blocks| == |parts| && forall i :: 0 <= i < |parts| ==> blocks[i] == parts[i].block
    ensures citations == AllCitations(parts)
    ensures total == |AllHits(parts)|
  {
    hide KeysOf, OfKey, Sorted, BlockOf, CitationsOf;
    var keys, groups := Grouped(hits);
    blocks, citations, parts, total := [], [], [], 0;
    for i := 0 to |keys|
      invariant |parts| == |blocks| == i
      invariant forall j :: 0 <= j < i ==> parts[j] == PartOf(own, hits, keys[j]) && blocks[j] == parts[j].block
      invariant citations == AllCitations(parts)
      invariant total == |AllHits(parts)|
    {
      var group := Sorted(groups[keys[i]], NotAfter);
      var block := BlockOf(own, keys[i], group);
      var cited := CiteGroup(own, group);
      assert (parts + [Part(block, cited, group)])[..i] == parts;
      blocks := blocks + [block];
      total := total + |group|;
      citations := citations + cited;
      parts := parts + [Part(block, cited, group)];
    }
  }

  // ---- Every hit in one part -----------------------------------------------------------------------------

  lemma {:induction false} OfKeyCounts(hits: seq<Hit>, key: Key, h: Hit)
    ensures multiset(OfKey(hits, key))[h] == if KeyOf(h) == key then multiset(hits)[h] else 0
  {
    if hits != [] {
      OfKeyCounts(hits[..|hits| - 1], key, h);
      assert hits == hits[..|hits| - 1] + [hits[|hits| - 1]];
    }
  }

  lemma {:induction false} KeysAreDistinct(hits: seq<Hit>)
    ensures forall i, j :: 0 <= i < j < |KeysOf(hits)| ==> KeysOf(hits)[i] != KeysOf(hits)[j]
    ensures forall h :: h in hits ==> KeyOf(h) in KeysOf(hits)
  {
    if hits != [] {
      KeysAreDistinct(hits[..|hits| - 1]);
      assert hits == hits[..|hits| - 1] + [hits[|hits| - 1]];
    }
  }

  /** A part holds exactly the hits of its channel, as often as they were given, in order. */
  lemma PartHoldsItsChannel(own: string, hits: seq<Hit>, i: nat, h: Hit)
    requires i < |PartsOf(own, hits)|
    ensures var part := PartsOf(own, hits)[i];
      && Ordered(part.hits, NotAfter)
      && multiset(part.hits)[h] == if (h.workspace, h.channel) == KeysOf(hits)[i] then multiset(hits)[h] else 0
  {
    hide OfKey, Sorted, BlockOf, CitationsOf, Ordered, KeysOf;
    HitsSorted(OfKey(hits, KeysOf(hits)[i]));
    OfKeyCounts(hits, KeysOf(hits)[i], h);
  }

  function LinesOf(hits: seq<Hit>): (ls: seq<string>)
    ensures |ls| == |hits|
  {
    seq(|hits|, i requires 0 <= i < |hits| => "[" + hits[i].ts + "] " + hits[i].speaker + ": " + hits[i].text)
  }

  lemma {:induction false} BodyHasLines(hits: seq<Hit>)
    ensures IsJoined(BodyOf(hits), LinesOf(hits), "\n")
  {
    hide IsJoined;
    if hits == [] {
      NothingJoined("\n");
      assert LinesOf([]) == [];
    } else {
      var front, last := hits[..|hits| - 1], hits[|hits| - 1];
      var line := "[" + last.ts + "] " + last.speaker + ": " + last.text;
      assert LinesOf(hits) == LinesOf(front) + [line];
      if |hits| == 1 {
        JoinedOne(line, "\n");
        assert LinesOf(front) + [line] == [line] && "" + Rendered(last) == line;
      } else {
        BodyHasLines(front);
        JoinedBack(BodyOf(front), LinesOf(front), line, "\n");
      }
    }
  }

  lemma NothingJoined(sep: string)
    ensures IsJoined("", [], sep)
  {
  }

  /**
   * The block of a part names its channel, and its workspace if that is another one, and then has
   * a line for every hit of the part, in order, and nothing else.
   */
  lemma BlockShowsHits(own: string, hits: seq<Hit>, i: nat)
    requires i < |PartsOf(own, hits)|
    ensures var part, key := PartsOf(own, hits)[i], KeysOf(hits)[i];
      exists body :: IsJoined(body, LinesOf(part.hits), "\n")
        && part.block == (if key.0 == own then "### 채널 " else "### [" + key.0 + "] 채널 ") + key.1 + "\n" + body
  {
    hide OfKey, Sorted, CitationsOf, KeysOf, IsJoined, LinesOf, BodyOf;
    var part, key := PartsOf(own, hits)[i], KeysOf(hits)[i];
    BodyHasLines(part.hits);
    assert "### " + "" + "채널 " == "### 채널 ";
    assert "### " + ("[" + key.0 + "] ") + "채널 " == "### [" + key.0 + "] 채널 ";
  }

  lemma {:induction false} PartsHold(own: string, hits: seq<Hit>, n: nat, h: Hit)
    requires n <= |PartsOf(own, hits)|
    ensures multiset(AllHits(PartsOf(own, hits)[..n]))[h]
         == if KeyOf(h) in KeysOf(hits)[..n] then multiset(hits)[h] else 0
  {
    hide PartsOf, KeysOf, Ordered;
    var parts := PartsOf(own, hits);
    if n > 0 {
      PartsHold(own, hits, n - 1, h);
      KeysAreDistinct(hits);
      PartHoldsItsChannel(own, hits, n - 1, h);
      assert parts[..n][..n - 1] == parts[..n - 1];
      assert KeysOf(hits)[..n] == KeysOf(hits)[..n - 1] + [KeysOf(hits)[n - 1]];
    }
  }

  /** Every hit given is in exactly one part, and the count of lines is the count of hits. */
  lemma EveryHitInOnePart(own: string, hits: seq<Hit>)
    ensures multiset(AllHits(PartsOf(own, hits))) == multiset(hits)
    ensures |AllHits(PartsOf(own, hits))| == |hits|
  {
    hide PartsOf, KeysOf, AllHits;
    var parts := PartsOf(own, hits);
    KeysAreDistinct(hits);
    assert parts[..|parts|] == parts && KeysOf(hits)[..|parts|] == KeysOf(hits);
    forall h ensures multiset(AllHits(parts))[h] == multiset(hits)[h] {
      PartsHold(own, hits, |parts|, h);
      assert h in multiset(hits) <==> h in hits;
    }
    assert multiset(AllHits(parts)) == multiset(hits);
    assert |multiset(AllHits(parts))| == |multiset(hits)|;
  }

  /** The first word of a text: what stands between the spaces in front and the next space. */
  ghost predicate IsFirstWord(word: string, s: string) {
    exists n: nat :: n + |word| <= |s| && WordAt(word, s, n)
  }

  predicate WordAt(word: string, s: string, n: nat)
    requires n + |word| <= |s|
  {
    && (forall i :: 0 <= i < n ==> Markdown.IsSpace(s[i]))
    && s[n..n + |word|] == word && (forall i :: 0 <= i < |word| ==> !Markdown.IsSpace(word[i]))
    && (n + |word| == |s| || (word != "" && Markdown.IsSpace(s[n + |word|])))
  }

  lemma {:induction false} UpToSpaceIs(s: string)
    ensures var w := UpToSpace(s);
      && w <= s && (forall i :: 0 <= i < |w| ==> !Markdown.IsSpace(w[i]))
      && (|w| == |s| || Markdown.IsSpace(s[|w|]))
  {
    if s != "" && !Markdown.IsSpace(s[0]) {
      UpToSpaceIs(s[1..]);
      assert s == [s[0]] + s[1..];
    }
  }

  lemma OneSpaceMore(word: string, s: string, m: nat)
    requires s != "" && Markdown.IsSpace(s[0]) && m + |word| <= |s[1..]| && WordAt(word, s[1..], m)
    ensures WordAt(word, s, m + 1)
  {
    hide Markdown.IsSpace;
    assert s[m + 1..m + 1 + |word|] == s[1..][m..m + |word|];
    assert forall i :: 1 <= i < m + 1 ==> s[i] == s[1..][i - 1];
  }

  lemma {:induction false} FirstWordIs(s: string) returns (n: nat)
    ensures n + |FirstWord(s)| <= |s| && WordAt(FirstWord(s), s, n)
  {
    if s == "" {
      n := 0;
    } else if Markdown.IsSpace(s[0]) {
      var m := FirstWordIs(s[1..]);
      n := m + 1;
      assert FirstWord(s) == FirstWord(s[1..]);
      OneSpaceMore(FirstWord(s), s, m);
    } else {
      n := 0;
      UpToSpaceIs(s);
    }
  }

  /** The citation names the hit's channel, its workspace if that is another one, its file and its day. */
  ghost predicate Cites(own: string, c: Citation, h: Hit) {
    && c.channel == h.channel
    && c.workspace == (if h.workspace == own then "" else h.workspace)
    && (h.source != "" ==> c.source == h.source) && (h.source == "" ==> c.source == h.path)
    && IsFirstWord(c.date, h.ts)
  }

  /** The citations of a part name its hits, and each hit is named. */
  lemma CitationsNameHits(own: string, hits: seq<Hit>)
    ensures forall c :: c in CitationsOf(own, hits) ==> exists h :: h in hits && Cites(own, c, h)
    ensures forall h :: h in hits ==> exists c :: c in CitationsOf(own, hits) && Cites(own, c, h)
  {
    CitedOnce(own, hits);
    forall h: Hit ensures Cites(own, CitationOf(own, h), h) {
      var n := FirstWordIs(h.ts);
    }
    hide Cites, CitationOf, CitationsOf;
    forall h | h in hits ensures exists c :: c in CitationsOf(own, hits) && Cites(own, c, h) {
      assert CitationOf(own, h) in CitationsOf(own, hits);
    }
  }

  /** Each citation is given once in its part, and every hit's is among them. */
  lemma {:induction false} CitedOnce(own: string, hits: seq<Hit>)
    ensures forall c :: c in CitationsOf(own, hits) <==> exists h :: h in hits && CitationOf(own, h) == c
    ensures forall i, j :: 0 <= i < j < |CitationsOf(own, hits)| ==> CitationsOf(own, hits)[i] != CitationsOf(own, hits)[j]
  {
    hide CitationOf;
    if hits != [] {
      CitedOnce(own, hits[..|hits| - 1]);
      assert hits == hits[..|hits| - 1] + [hits[|hits| - 1]];
      assert hits[|hits| - 1] in hits;
    }
  }

  // ---- Fitting the budget --------------------------------------------------------------------------------

  /** `"\n\n".join(blocks)`. */
  function Join(blocks: seq<string>): string {
    if blocks == [] then ""
    else if |blocks| == 1 then blocks[0]
    else Join(blocks[..|blocks| - 1]) + "\n\n" + blocks[|blocks| - 1]
  }

  /** The blocks stand in it in order, a blank line between them, and nothing else does. */
  lemma {:induction false} JoinHasBlocks(blocks: seq<string>)
    ensures IsJoined(Join(blocks), blocks, "\n\n")
  {
    hide IsJoined;
    if blocks == [] {
      NothingJoined("\n\n");
    } else {
      var front, last := blocks[..|blocks| - 1], blocks[|blocks| - 1];
      assert blocks == front + [last];
      if |blocks| == 1 {
        JoinedOne(last, "\n\n");
      } else {
        JoinHasBlocks(front);
        JoinedBack(Join(front), front, last, "\n\n");
      }
    }
  }

  predicate Below(at: seq<nat>, n: nat) { forall j :: 0 <= j < |at| ==> at[j] < n }

  function BlocksAt(parts: seq<Part>, at: seq<nat>): (r: seq<string>)
    requires Below(at, |parts|)
    ensures |r| == |at|
  {
    seq(|at|, j requires 0 <= j < |at| => parts[at[j]].block)
  }

  function PartsAt(parts: seq<Part>, at: seq<nat>): (r: seq<Part>)
    requires Below(at, |parts|)
    ensures |r| == |at|
  {
    seq(|at|, j requires 0 <= j < |at| => parts[at[j]])
  }

  /** Joined to the parts chosen so far, part `i` stays within the budget. */
  predicate Fits(parts: seq<Part>, at: seq<nat>, i: nat, budget: nat)
    requires Below(at, |parts|) && i < |parts|
  {
    |Join(BlocksAt(parts, at) + [parts[i].block])| <= budget
  }

  /** The parts that are sent, of the first `n`: each one that still fits when its turn comes. */
  function Chosen(parts: seq<Part>, budget: nat, n: nat): (at: seq<nat>)
    requires n <= |parts|
    ensures Below(at, n)
  {
    if n == 0 then []
    else
      var before := Chosen(parts, budget, n - 1);
      if Fits(parts, before, n - 1, budget) then before + [n - 1] else before
  }

  /** The parts that are only named, with their titles. */
  function Omitted(parts: seq<Part>, budget: nat, n: nat): (at: seq<nat>)
    requires n <= |parts|
    ensures Below(at, n)
  {
    if n == 0 then []
    else
      var before := Omitted(parts, budget, n - 1);
      if Fits(parts, Chosen(parts, budget, n - 1), n - 1, budget) then before else before + [n - 1]
  }

  /** The length of a join grows by the block and, after the first, by a separator. */
  lemma JoinedLength(blocks: seq<string>, block: string)
    ensures |Join(blocks + [block])| == |Join(blocks)| + (if blocks == [] then 0 else 2) + |block|
  {
    assert (blocks + [block])[..|blocks + [block]| - 1] == blocks;
  }

  lemma BlocksAtNext(parts: seq<Part>, at: seq<nat>, i: nat)
    requires Below(at, |parts|) && i < |parts|
    ensures BlocksAt(parts, at + [i]) == BlocksAt(parts, at) + [parts[i].block]
    ensures PartsAt(parts, at + [i]) == PartsAt(parts, at) + [parts[i]]
    ensures AllCitations(PartsAt(parts, at + [i])) == AllCitations(PartsAt(parts, at)) + parts[i].citations
    ensures AllHits(PartsAt(parts, at + [i])) == AllHits(PartsAt(parts, at)) + parts[i].hits
  {
    assert PartsAt(parts, at + [i]) == PartsAt(parts, at) + [parts[i]];
    assert (PartsAt(parts, at) + [parts[i]])[..|at|] == PartsAt(parts, at);
  }

  /** What is sent to the specialist, and the parts left out by number. */
  datatype Packed = Packed(blocks: seq<string>, citations: seq<Citation>, hits: seq<Hit>, lines: nat, used: nat, omitted: seq<nat>)

  /** The packing loop keeps a running length instead of joining again each time. */
  method Pack(parts: seq<Part>, budget: nat) returns (p: Packed)
    ensures var at := Chosen(parts, budget, |parts|);
      && p.blocks == BlocksAt(parts, at)
      && p.used == |Join(p.blocks)|
      && p.citations == AllCitations(PartsAt(parts, at))
      && p.hits == AllHits(PartsAt(parts, at)) && p.lines == |p.hits|
      && p.omitted == Omitted(parts, budget, |parts|)
  {
    hide Join, AllCitations, AllHits;
    var blocks, citations, hits, lines, used, omitted: seq<nat> := [], [], [], 0, 0, [];
    NothingPacked(parts);
    for i := 0 to |parts|
      invariant blocks == BlocksAt(parts, Chosen(parts, budget, i))
      invariant used == |Join(blocks)|
      invariant citations == AllCitations(PartsAt(parts, Chosen(parts, budget, i)))
      invariant hits == AllHits(PartsAt(parts, Chosen(parts, budget, i))) && lines == |hits|
      invariant omitted == Omitted(parts, budget, i)
    {
      var part := parts[i];
      JoinedLength(blocks, part.block);
      BlocksAtNext(parts, Chosen(parts, budget, i), i);
      hide BlocksAt, PartsAt;
      var separator := if blocks != [] then 2 else 0;
      if used + separator + |part.block| > budget {
        omitted := omitted + [i];
        continue;
      }
      blocks := blocks + [part.block];
      citations := citations + part.citations;
      hits := hits + part.hits;
      lines := lines + |part.hits|;
      used := used + separator + |part.block|;
    }
    p := Packed(blocks, citations, hits, lines, used, omitted);
  }

  lemma NothingPacked(parts: seq<Part>)
    ensures BlocksAt(parts, []) == [] && Join([]) == ""
    ensures AllCitations(PartsAt(parts, [])) == [] && AllHits(PartsAt(parts, [])) == []
  {
  }

  predicate Ascending(at: seq<nat>) { forall i, j :: 0 <= i < j < |at| ==> at[i] < at[j] }

  /** What is sent never exceeds the budget and keeps the order of the parts. */
  lemma {:induction false} WithinBudget(parts: seq<Part>, budget: nat, n: nat)
    requires n <= |parts|
    ensures var at := Chosen(parts, budget, n);
      Ascending(at) && |Join(BlocksAt(parts, at))| <= budget
  {
    hide Join, BlocksAt;
    if n > 0 {
      WithinBudget(parts, budget, n - 1);
      BlocksAtNext(parts, Chosen(parts, budget, n - 1), n - 1);
    } else {
      NothingPacked(parts);
    }
  }

  /** Every part is either sent or counted as omitted, never both. */
  lemma {:induction false} SentOrOmitted(parts: seq<Part>, budget: nat, n: nat)
    requires n <= |parts|
    ensures |Chosen(parts, budget, n)| + |Omitted(parts, budget, n)| == n
    ensures forall i: nat :: i < n ==> (i in Chosen(parts, budget, n) <==> i !in Omitted(parts, budget, n))
  {
    hide Fits;
    if n > 0 {
      SentOrOmitted(parts, budget, n - 1);
    }
  }

  lemma {:induction false} LongerAgain(parts: seq<Part>, budget: nat, i: nat, n: nat)
    requires i <= n <= |parts|
    ensures |Join(BlocksAt(parts, Chosen(parts, budget, i)))| <= |Join(BlocksAt(parts, Chosen(parts, budget, n)))|
    ensures |Chosen(parts, budget, i)| <= |Chosen(parts, budget, n)|
  {
    hide Join, BlocksAt, Fits;
    if i < n {
      LongerAgain(parts, budget, i, n - 1);
      var before := Chosen(parts, budget, n - 1);
      BlocksAtNext(parts, before, n - 1);
      JoinedLength(BlocksAt(parts, before), parts[n - 1].block);
    }
  }

  /**
   * An omitted part did not fit when its turn came - and would not fit behind what was sent in
   * the end either.
   */
  lemma OmittedDoesNotFit(parts: seq<Part>, budget: nat, i: nat)
    requires i < |parts| && i in Omitted(parts, budget, |parts|)
    ensures |Join(BlocksAt(parts, Chosen(parts, budget, i)) + [parts[i].block])| > budget
    ensures |Join(BlocksAt(parts, Chosen(parts, budget, |parts|)) + [parts[i].block])| > budget
  {
    hide Join;
    OmittedAtItsTurn(parts, budget, i, |parts|);
    LongerAgain(parts, budget, i, |parts|);
    JoinedLength(BlocksAt(parts, Chosen(parts, budget, i)), parts[i].block);
    JoinedLength(BlocksAt(parts, Chosen(parts, budget, |parts|)), parts[i].block);
  }

  lemma {:induction false} OmittedAtItsTurn(parts: seq<Part>, budget: nat, i: nat, n: nat)
    requires i < n <= |parts|
    ensures i in Omitted(parts, budget, n) <==> !Fits(parts, Chosen(parts, budget, i), i, budget)
  {
    hide Fits, Chosen;
    if i < n - 1 {
      OmittedAtItsTurn(parts, budget, i, n - 1);
    } else {
      assert Below(Omitted(parts, budget, i), i);
    }
  }

  // ---- The lines a question came with --------------------------------------------------------------------

  function PlaceOf(h: Hit): (string, int) { (h.path, h.lineno) }

  predicate PlaceIn(hits: seq<Hit>, h: Hit) { exists i :: 0 <= i < |hits| && PlaceOf(hits[i]) == PlaceOf(h) }

  function PlacesOf(hits: seq<Hit>): set<(string, int)> {
    set i | 0 <= i < |hits| :: PlaceOf(hits[i])
  }

  lemma SeedPlaces(hits: seq<Hit>)
    ensures forall h :: PlaceOf(h) in PlacesOf(hits) <==> PlaceIn(hits, h)
  {
    hide PlaceOf;
  }

  /** Hits added behind the given rows, one for each place not there yet. */
  function Merged(rows: seq<Hit>, hits: seq<Hit>): seq<Hit> {
    if hits == [] then rows
    else
      var before, h := Merged(rows, hits[..|hits| - 1]), hits[|hits| - 1];
      if PlaceIn(before, h) then before else before + [h]
  }

  /** Without attached lines the hits are passed on as they are, repeats included. */
  function Seeded(seed: seq<Hit>, hits: seq<Hit>): seq<Hit> { if seed == [] then hits else Merged(seed, hits) }

  lemma MergedNothing(rows: seq<Hit>)
    ensures Merged(rows, []) == rows
  {
  }

  lemma MergedNext(rows: seq<Hit>, hits: seq<Hit>, i: nat)
    requires i < |hits|
    ensures var before := Merged(rows, hits[..i]);
      Merged(rows, hits[..i + 1]) == if PlaceIn(before, hits[i]) then before else before + [hits[i]]
  {
    hide PlaceIn;
    assert hits[..i + 1][..i] == hits[..i];
  }

  /** The places of the rows are those seen. */
  ghost predicate Sees(seen: set<(string, int)>, rows: seq<Hit>) {
    forall h :: PlaceOf(h) in seen <==> PlaceIn(rows, h)
  }

  lemma SeesOne(seen: set<(string, int)>, rows: seq<Hit>, h: Hit)
    requires Sees(seen, rows)
    ensures PlaceOf(h) in seen <==> PlaceIn(rows, h)
    ensures Sees(seen + {PlaceOf(h)}, rows + [h])
  {
    hide PlaceOf, PlaceIn;
    PlaceAdded(rows, h);
  }

  method WithSeed(seed: seq<Hit>, hits: seq<Hit>) returns (rows: seq<Hit>)
    ensures rows == Seeded(seed, hits)
  {
    if seed == [] {
      return hits;
    }
    MergedNothing(seed);
    SeedPlaces(seed);
    assert hits[..0] == [];
    rows := seed;
    var seen := PlacesOf(seed);
    hide PlaceOf, PlaceIn, PlacesOf, Merged;
    assert Sees(seen, rows);
    hide Sees;
    for i := 0 to |hits|
      invariant rows == Merged(seed, hits[..i])
      invariant Sees(seen, rows)
    {
      MergedNext(seed, hits, i);
      var place := PlaceOf(hits[i]);
      SeesOne(seen, rows, hits[i]);
      if place !in seen {
        seen := seen + {place};
        rows := rows + [hits[i]];
      }
    }
    assert hits[..|hits|] == hits;
  }

  lemma PlaceAdded(rows: seq<Hit>, added: Hit)
    ensures forall h :: PlaceIn(rows + [added], h) <==> PlaceIn(rows, h) || PlaceOf(h) == PlaceOf(added)
  {
    hide PlaceOf;
    var all := rows + [added];
    assert all[|rows|] == added;
    forall h | PlaceIn(rows, h) ensures PlaceIn(all, h) {
      var i :| 0 <= i < |rows| && PlaceOf(rows[i]) == PlaceOf(h);
      assert all[i] == rows[i];
    }
  }

  lemma {:induction false} MergedPlaces(seed: seq<Hit>, hits: seq<Hit>)
    ensures seed <= Merged(seed, hits)
    ensures forall h :: PlaceIn(Merged(seed, hits), h) <==> PlaceIn(seed, h) || PlaceIn(hits, h)
  {
    hide PlaceOf;
    if hits == [] {
    } else {
      hide PlaceIn;
      var front, last := hits[..|hits| - 1], hits[|hits| - 1];
      MergedPlaces(seed, front);
      assert front + [last] == hits;
      PlaceAdded(front, last);
      PlaceAdded(Merged(seed, front), last);
      PlaceSame(Merged(seed, front), last);
    }
  }

  lemma PlaceSame(rows: seq<Hit>, h: Hit)
    ensures forall x :: PlaceOf(x) == PlaceOf(h) ==> (PlaceIn(rows, x) <==> PlaceIn(rows, h))
  {
    hide PlaceOf;
  }

  /** From position `n` on, no row repeats an earlier row's place. */
  predicate FreshFrom(rows: seq<Hit>, n: nat) {
    forall i, j :: 0 <= i < j < |rows| && n <= j ==> PlaceOf(rows[i]) != PlaceOf(rows[j])
  }

  lemma FreshAdded(rows: seq<Hit>, n: nat, h: Hit)
    requires FreshFrom(rows, n) && !PlaceIn(rows, h)
    ensures FreshFrom(rows + [h], n)
  {
    PlaceOfMember(rows, h);
    hide PlaceOf, PlaceIn;
  }

  lemma {:induction false} MergedFresh(seed: seq<Hit>, hits: seq<Hit>)
    ensures FreshFrom(Merged(seed, hits), |seed|)
  {
    hide PlaceOf, PlaceIn;
    if hits != [] {
      hide FreshFrom;
      MergedFresh(seed, hits[..|hits| - 1]);
      var before, last := Merged(seed, hits[..|hits| - 1]), hits[|hits| - 1];
      if !PlaceIn(before, last) {
        FreshAdded(before, |seed|, last);
      }
    }
  }

  /** The attached lines come first, every hit's place is there, and no added line repeats a place. */
  lemma MergedKeepsAll(seed: seq<Hit>, hits: seq<Hit>)
    ensures var rows := Merged(seed, hits);
      && seed <= rows
      && (forall h :: PlaceIn(rows, h) <==> PlaceIn(seed, h) || PlaceIn(hits, h))
      && FreshFrom(rows, |seed|)
  {
    hide PlaceOf, PlaceIn, Merged, FreshFrom;
    MergedPlaces(seed, hits);
    MergedFresh(seed, hits);
  }

  /** A line of the same file and number is attached or was found before. */
  predicate IsKnown(seed: seq<Hit>, hits: seq<Hit>, n: nat)
    requires n < |hits|
  {
    || (exists i :: 0 <= i < |seed| && seed[i].path == hits[n].path && seed[i].lineno == hits[n].lineno)
    || (exists i :: 0 <= i < n && hits[i].path == hits[n].path && hits[i].lineno == hits[n].lineno)
  }

  /** Which hits are added: those whose file and line number neither an attached line has nor a hit before. */
  function AddedAt(seed: seq<Hit>, hits: seq<Hit>, n: nat): seq<nat>
    requires n <= |hits|
  {
    if n == 0 then []
    else AddedAt(seed, hits, n - 1) + if IsKnown(seed, hits, n - 1) then [] else [n - 1]
  }

  lemma {:induction false} AddedBelow(seed: seq<Hit>, hits: seq<Hit>, n: nat)
    requires n <= |hits|
    ensures Below(AddedAt(seed, hits, n), n) && Ascending(AddedAt(seed, hits, n))
  {
    if n > 0 {
      AddedBelow(seed, hits, n - 1);
    }
  }

  function HitsAt(hits: seq<Hit>, at: seq<nat>): (r: seq<Hit>)
    requires Below(at, |hits|)
    ensures |r| == |at|
  {
    seq(|at|, j requires 0 <= j < |at| => hits[at[j]])
  }

  lemma PlaceInIs(hits: seq<Hit>, h: Hit)
    ensures PlaceIn(hits, h) <==> exists i :: 0 <= i < |hits| && hits[i].path == h.path && hits[i].lineno == h.lineno
  {
  }

  lemma KnownIff(seed: seq<Hit>, hits: seq<Hit>, n: nat)
    requires n < |hits|
    ensures IsKnown(seed, hits, n) <==> PlaceIn(Merged(seed, hits[..n]), hits[n])
  {
    MergedPlaces(seed, hits[..n]);
    PlaceInIs(seed, hits[n]);
    PlaceInIs(hits[..n], hits[n]);
    hide PlaceIn, PlaceOf, Merged;
    assert forall i :: 0 <= i < n ==> hits[..n][i] == hits[i];
  }

  lemma OneHitMore(hits: seq<Hit>, at: seq<nat>, i: nat)
    requires Below(at, |hits|) && i < |hits|
    ensures Below(at + [i], |hits|) && HitsAt(hits, at + [i]) == HitsAt(hits, at) + [hits[i]]
  {
  }

  /** Behind the attached lines come the hits of new places, each the first of its place, in their order. */
  lemma {:induction false} MergedIs(seed: seq<Hit>, hits: seq<Hit>, n: nat)
    requires n <= |hits|
    ensures Below(AddedAt(seed, hits, n), |hits|)
    ensures Merged(seed, hits[..n]) == seed + HitsAt(hits, AddedAt(seed, hits, n))
  {
    AddedBelow(seed, hits, n);
    if n == 0 {
      MergedNothing(seed);
      assert HitsAt(hits, []) == [] && seed + [] == seed;
    } else {
      hide PlaceIn, PlaceOf, IsKnown, HitsAt, Merged;
      MergedIs(seed, hits, n - 1);
      MergedNext(seed, hits, n - 1);
      KnownIff(seed, hits, n - 1);
      var before := AddedAt(seed, hits, n - 1);
      assert before + [] == before;
      OneHitMore(hits, before, n - 1);
      Assoc(seed, HitsAt(hits, before), [hits[n - 1]]);
    }
  }

  /**
   * The evidence is free of repeats exactly when what it starts from is: the attached lines, or
   * without them the hits, which are passed on as they are.
   */
  lemma MergedOnceIff(seed: seq<Hit>, hits: seq<Hit>)
    ensures FreshFrom(Seeded(seed, hits), 0) <==> FreshFrom(if seed == [] then hits else seed, 0)
  {
    hide PlaceOf, PlaceIn, Merged;
    if seed != [] {
      MergedKeepsAll(seed, hits);
      var rows := Seeded(seed, hits);
      assert forall i :: 0 <= i < |seed| ==> rows[i] == seed[i];
    }
  }

  /** One line found twice, and one attached twice. */
  lemma RepeatsStay(h: Hit)
    ensures !FreshFrom(Seeded([], [h, h]), 0) && !FreshFrom(Seeded([h, h], []), 0)
  {
    MergedOnceIff([], [h, h]);
    MergedOnceIff([h, h], []);
    assert PlaceOf([h, h][0]) == PlaceOf([h, h][1]);
  }

  lemma PlaceOfMember(rows: seq<Hit>, h: Hit)
    ensures !PlaceIn(rows, h) ==> forall i :: 0 <= i < |rows| ==> PlaceOf(rows[i]) != PlaceOf(h)
  {
  }
}
