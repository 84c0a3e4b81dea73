/**
 * The snapshot fingerprint of scripts/archive_layout_convert.py: what is fed to the hash is one
 * length-prefixed entry per file, in path order. A text is a sequence of bytes here.
 */
module Snapshot {
  import opened Basics
  import opened Digits
  import opened Sorting
  import opened StringOrder

  /** A file: its path relative to the root, and its content. */
  datatype File = File(rel: string, content: string)

  /** What the encoding says of a file: its path and the 64 digits of its content's hash. */
  datatype Entry = Entry(rel: string, digest: string)

  const DIGEST := 64

  /** The hash of one file's content, as hex text. */
  type Hash = string -> string

  // ---- Path order ------------------------------------------------------------------------------------

  predicate ByPath(f: File, g: File) { Le(f.rel, g.rel) }

  predicate InOrder(fs: seq<File>) { Ordered(fs, ByPath) }

  lemma ByPathIsOrder()
    ensures IsOrder(ByPath)
  {
    forall f: File, g: File ensures ByPath(f, g) || ByPath(g, f) {
      LeTotal(f.rel, g.rel);
    }
    forall f: File, g: File, h: File | ByPath(f, g) && ByPath(g, h) ensures ByPath(f, h) {
      LeTrans(f.rel, g.rel, h.rel);
    }
  }

  predicate OnePerPath(fs: seq<File>) { forall f, g :: f in fs && g in fs && f.rel == g.rel ==> f == g }

  lemma PathsSorted(fs: seq<File>)
    ensures InOrder(Sorted(fs, ByPath)) && multiset(Sorted(fs, ByPath)) == multiset(fs)
  {
    ByPathIsOrder();
    SortedSorts(fs, ByPath);
  }

  /** The files are fed by path, in Python's order of strings. */
  lemma PathsAscend(fs: seq<File>, i: nat, j: nat)
    requires i < j < |Sorted(fs, ByPath)|
    ensures Le(Sorted(fs, ByPath)[i].rel, Sorted(fs, ByPath)[j].rel)
  {
    hide Le, Sorted;
    PathsSorted(fs);
  }

  lemma SmallestFirst(a: seq<File>, b: seq<File>)
    requires InOrder(a) && a != [] && multiset(a) == multiset(b)
    ensures b != [] && Le(a[0].rel, b[0].rel) && b[0] in a
  {
    hide Le;
    assert a[0] in multiset(b);
    assert b[0] in multiset(a);
    var i :| 0 <= i < |a| && a[i] == b[0];
    LeTotal(a[0].rel, a[0].rel);
  }

  /** One order, one list. */
  lemma {:induction false} OrderIsUnique(a: seq<File>, b: seq<File>)
    requires InOrder(a) && InOrder(b) && OnePerPath(a) && multiset(a) == multiset(b)
    ensures a == b
  {
    if a == [] {
      assert |multiset(b)| == 0;
    } else {
      SmallestFirst(a, b);
      SmallestFirst(b, a);
      SamePathSameFile(a, a[0], b[0]);
      hide Le, InOrder, OnePerPath;
      TailOf(a);
      TailOf(b);
      OrderIsUnique(a[1..], b[1..]);
    }
  }

  lemma SamePathSameFile(a: seq<File>, f: File, g: File)
    requires OnePerPath(a) && f in a && g in a && Le(f.rel, g.rel) && Le(g.rel, f.rel)
    ensures f == g
  {
    LeTotal(f.rel, g.rel);
  }

  lemma TailOf(a: seq<File>)
    requires a != [] && InOrder(a)
    ensures a == [a[0]] + a[1..] && InOrder(a[1..]) && (OnePerPath(a) ==> OnePerPath(a[1..]))
    ensures multiset(a[1..]) == multiset(a) - multiset{a[0]}
  {
    hide Le;
    assert a == [a[0]] + a[1..];
  }

  // ---- The encoding ------------------------------------------------------------------------------------

  function Feed(hash: Hash, f: File): string { OfNat(|f.rel|) + ":" + f.rel + hash(f.content) }

  function Encoded(hash: Hash, fs: seq<File>): string {
    if fs == [] then "" else Encoded(hash, fs[..|fs| - 1]) + Feed(hash, fs[|fs| - 1])
  }

  /** All that is fed to the hash for a set of files. */
  function Encoding(hash: Hash, files: seq<File>): string { Encoded(hash, Sorted(files, ByPath)) }

  method SnapshotDigest(hash: Hash, files: seq<File>) returns (digest: string)
    ensures digest == hash(Encoding(hash, files))
  {
    hide Encoded, Sorted, OfNat;
    var entries := Sorted(files, ByPath);
    var fed := "";
    NothingFed(hash);
    assert entries[..0] == [];
    for i := 0 to |entries|
      invariant fed == Encoded(hash, entries[..i])
    {
      EncodedNext(hash, entries, i);
      fed := fed + OfNat(|entries[i].rel|) + ":";
      fed := fed + entries[i].rel;
      fed := fed + hash(entries[i].content);
      Fused(Encoded(hash, entries[..i]), OfNat(|entries[i].rel|), entries[i].rel, hash(entries[i].content));
    }
    assert entries[..|entries|] == entries;
    digest := hash(fed);
  }

  lemma NothingFed(hash: Hash)
    ensures Encoded(hash, []) == ""
  {
  }

  lemma EncodedNext(hash: Hash, fs: seq<File>, i: nat)
    requires i < |fs|
    ensures Encoded(hash, fs[..i + 1]) == Encoded(hash, fs[..i]) + Feed(hash, fs[i])
  {
    assert fs[..i + 1][..i] == fs[..i];
    hide Feed;
  }

  lemma Fused(fed: string, n: string, rel: string, h: string)
    ensures fed + n + ":" + rel + h == fed + (n + ":" + rel + h)
  {
  }

  /** Reads the encoding back. */
  function Decode(s: string): Option<seq<Entry>>
    decreases |s|
  {
    if s == "" then Some([])
    else
      var n := Leading(s);
      if n == |s| || s[n] != ':' then None
      else
        var body, len := s[n + 1..], ToNat(s[..n]);
        if |body| < len + DIGEST then None
        else
          match Decode(body[len + DIGEST..])
          case None => None
          case Some(rest) => Some([Entry(body[..len], body[len..len + DIGEST])] + rest)
  }

  function EntryOf(hash: Hash, f: File): Entry { Entry(f.rel, hash(f.content)) }

  function EntriesOf(hash: Hash, fs: seq<File>): (es: seq<Entry>)
    ensures |es| == |fs|
  {
    seq(|fs|, i requires 0 <= i < |fs| => EntryOf(hash, fs[i]))
  }

  lemma {:induction false} EncodedFront(hash: Hash, fs: seq<File>)
    requires fs != []
    ensures Encoded(hash, fs) == Feed(hash, fs[0]) + Encoded(hash, fs[1..])
  {
    hide Feed;
    if |fs| == 1 {
      assert fs[..0] == [] && fs[1..] == [];
      assert "" + Feed(hash, fs[0]) == Feed(hash, fs[0]) + "";
    } else {
      var front := fs[..|fs| - 1];
      EncodedFront(hash, front);
      assert front[1..] == fs[1..][..|fs[1..]| - 1];
      Assoc(Feed(hash, fs[0]), Encoded(hash, front[1..]), Feed(hash, fs[|fs| - 1]));
    }
  }

  /** One entry in front of anything decodes to itself and what follows. */
  lemma DecodeFeed(hash: Hash, f: File, rest: string)
    requires |hash(f.content)| == DIGEST
    ensures Decode(Feed(hash, f) + rest)
         == match Decode(rest) case None => None case Some(es) => Some([EntryOf(hash, f)] + es)
  {
    var n, tail := OfNat(|f.rel|), f.rel + hash(f.content) + rest;
    var s := Feed(hash, f) + rest;
    Unfed(n, f.rel, hash(f.content), rest);
    hide OfNat, ToNat, Leading, AllDigits;
    LeadingRun(n, ":" + tail);
    ReadBack(|f.rel|);
    assert (":" + tail)[1..] == tail;
    assert s[|n| + 1..] == tail;
    Parts(f.rel, hash(f.content), rest);
  }

  lemma Unfed(n: string, rel: string, h: string, rest: string)
    ensures (n + ":" + rel + h) + rest == n + (":" + (rel + h + rest))
  {
  }

  lemma Parts(rel: string, h: string, rest: string)
    ensures var s := rel + h + rest;
      s[..|rel|] == rel && s[|rel|..|rel| + |h|] == h && s[|rel| + |h|..] == rest
  {
  }

  /** Nothing in the encoding is ambiguous: it decodes to the paths and hashes it was made from. */
  lemma {:induction false} EncodingDecodes(hash: Hash, fs: seq<File>)
    requires forall f :: f in fs ==> |hash(f.content)| == DIGEST
    ensures Decode(Encoded(hash, fs)) == Some(EntriesOf(hash, fs))
  {
    hide Feed, Encoded, Decode;
    if fs == [] {
      NothingDecodes(hash);
    } else {
      EncodedFront(hash, fs);
      EncodingDecodes(hash, fs[1..]);
      DecodeFeed(hash, fs[0], Encoded(hash, fs[1..]));
      EntriesFront(hash, fs);
    }
  }

  lemma NothingDecodes(hash: Hash)
    ensures Decode(Encoded(hash, [])) == Some([]) && EntriesOf(hash, []) == []
  {
  }

  lemma EntriesFront(hash: Hash, fs: seq<File>)
    requires fs != []
    ensures EntriesOf(hash, fs) == [EntryOf(hash, fs[0])] + EntriesOf(hash, fs[1..])
  {
  }

  /** No two of the contents share a hash. */
  predicate NoCollision(hash: Hash, files: seq<File>) {
    forall f, g :: f in files && g in files && hash(f.content) == hash(g.content) ==> f.content == g.content
  }

  lemma SameEntriesSameFiles(hash: Hash, a: seq<File>, b: seq<File>)
    requires NoCollision(hash, a + b) && EntriesOf(hash, a) == EntriesOf(hash, b)
    ensures a == b
  {
    assert |a| == |EntriesOf(hash, a)| == |b|;
    forall i | 0 <= i < |a| ensures a[i] == b[i] {
      assert EntriesOf(hash, a)[i] == EntriesOf(hash, b)[i];
      assert a[i] in a + b && b[i] in a + b;
    }
  }

  /**
   * The fingerprint's input pins the snapshot: two sets of files give the same bytes exactly when
   * they are the same files, whatever order they are listed in.
   */
  lemma SnapshotPinned(hash: Hash, a: seq<File>, b: seq<File>)
    requires OnePerPath(a) && OnePerPath(b) && NoCollision(hash, a + b)
    requires forall f :: f in a + b ==> |hash(f.content)| == DIGEST
    ensures Encoding(hash, a) == Encoding(hash, b) <==> multiset(a) == multiset(b)
  {
    hide Encoded, Sorted, Decode, InOrder, EntriesOf;
    PathsSorted(a);
    PathsSorted(b);
    SameMembers(a, Sorted(a, ByPath));
    SameMembers(b, Sorted(b, ByPath));
    if multiset(a) == multiset(b) {
      OrderIsUnique(Sorted(a, ByPath), Sorted(b, ByPath));
    }
    if Encoding(hash, a) == Encoding(hash, b) {
      EncodingDecodes(hash, Sorted(a, ByPath));
      EncodingDecodes(hash, Sorted(b, ByPath));
      SameEntriesSameFiles(hash, Sorted(a, ByPath), Sorted(b, ByPath));
    }
  }

  lemma SameMembers(a: seq<File>, b: seq<File>)
    requires multiset(a) == multiset(b)
    ensures forall f :: f in a <==> f in b
  {
    forall f ensures f in a <==> f in b {
      assert f in a <==> f in multiset(a);
      assert f in b <==> f in multiset(b);
    }
  }
}
