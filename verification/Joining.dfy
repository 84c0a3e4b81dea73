/** Texts joined with a separator, as Python's `join` does it: where each of them stands in the result. */
module Joining {
  import opened Basics

  /** Where text `i` begins: behind those before it and a separator after each of them. */
  function Offset(parts: seq<string>, gap: nat, i: nat): nat
    requires i <= |parts|
  {
    if i == 0 then 0 else Offset(parts, gap, i - 1) + |parts[i - 1]| + gap
  }

  /** Where text `i` ends. */
  function EndOf(parts: seq<string>, gap: nat, i: nat): nat
    requires i < |parts|
  {
    Offset(parts, gap, i) + |parts[i]|
  }

  predicate StandsAt(text: string, at: nat, part: string) { at + |part| <= |text| && text[at..at + |part|] == part }

  /** `text` is the parts in order with the separator between them and nothing else. */
  predicate IsJoined(text: string, parts: seq<string>, sep: string) {
    && |text| == (if parts == [] then 0 else EndOf(parts, |sep|, |parts| - 1))
    && (forall i :: 0 <= i < |parts| ==> StandsAt(text, Offset(parts, |sep|, i), parts[i]))
    && (forall i :: 0 <= i < |parts| - 1 ==> StandsAt(text, EndOf(parts, |sep|, i), sep))
  }

  lemma {:induction false} OffsetBehind(part: string, parts: seq<string>, gap: nat, i: nat)
    requires i <= |parts|
    ensures Offset([part] + parts, gap, i + 1) == |part| + gap + Offset(parts, gap, i)
  {
    if i > 0 {
      OffsetBehind(part, parts, gap, i - 1);
    }
  }

  lemma {:induction false} OffsetBefore(parts: seq<string>, part: string, gap: nat, i: nat)
    requires i <= |parts|
    ensures Offset(parts + [part], gap, i) == Offset(parts, gap, i)
  {
    if i > 0 {
      OffsetBefore(parts, part, gap, i - 1);
    }
  }

  lemma JoinedOne(part: string, sep: string)
    ensures IsJoined(part, [part], sep)
  {
    assert Offset([part], |sep|, 0) == 0;
  }

  lemma Later(front: string, text: string, at: nat, part: string)
    requires StandsAt(text, at, part)
    ensures StandsAt(front + text, |front| + at, part)
  {
    assert (front + text)[|front| + at..|front| + at + |part|] == text[at..at + |part|];
  }

  lemma Earlier(text: string, back: string, at: nat, part: string)
    requires StandsAt(text, at, part)
    ensures StandsAt(text + back, at, part)
  {
    assert (text + back)[at..at + |part|] == text[at..at + |part|];
  }

  lemma First(part: string, rest: string)
    ensures StandsAt(part + rest, 0, part)
  {
  }

  lemma Last(front: string, part: string)
    ensures StandsAt(front + part, |front|, part)
  {
  }

  lemma Threefold(a: string, b: string, c: string)
    ensures a + b + c == a + (b + c) && |a + b + c| == |a| + |b| + |c|
    ensures StandsAt(a + b + c, 0, a) && StandsAt(a + b + c, |a|, b) && StandsAt(a + b + c, |a| + |b|, c)
  {
  }

  /** One more text in front. */
  lemma JoinedFront(part: string, text: string, parts: seq<string>, sep: string)
    requires parts != [] && IsJoined(text, parts, sep)
    ensures IsJoined(part + sep + text, [part] + parts, sep)
  {
    hide StandsAt, Offset;
    var all, whole, gap := [part] + parts, part + sep + text, |sep|;
    Threefold(part, sep, text);
    OffsetOfFirst(all, gap);
    OffsetBehind(part, parts, gap, |parts| - 1);
    forall i | 0 <= i < |all| ensures StandsAt(whole, Offset(all, gap, i), all[i]) {
      if i > 0 {
        OffsetBehind(part, parts, gap, i - 1);
        Later(part + sep, text, Offset(parts, gap, i - 1), parts[i - 1]);
      }
    }
    forall i | 0 <= i < |all| - 1 ensures StandsAt(whole, EndOf(all, gap, i), sep) {
      if i > 0 {
        OffsetBehind(part, parts, gap, i - 1);
        Later(part + sep, text, EndOf(parts, gap, i - 1), sep);
      }
    }
  }

  lemma OffsetOfFirst(parts: seq<string>, gap: nat)
    ensures Offset(parts, gap, 0) == 0
  {
  }

  lemma OffsetOfNext(parts: seq<string>, gap: nat, i: nat)
    requires i < |parts|
    ensures Offset(parts, gap, i + 1) == EndOf(parts, gap, i) + gap
  {
  }

  /** One more text at the end. */
  lemma JoinedBack(text: string, parts: seq<string>, part: string, sep: string)
    requires parts != [] && IsJoined(text, parts, sep)
    ensures IsJoined(text + sep + part, parts + [part], sep)
  {
    hide StandsAt, Offset;
    var all, whole, n, gap := parts + [part], text + sep + part, |parts|, |sep|;
    Threefold(text, sep, part);
    OffsetBefore(parts, part, gap, n);
    OffsetOfNext(parts, gap, n - 1);
    forall i | 0 <= i < |all| ensures StandsAt(whole, Offset(all, gap, i), all[i]) {
      if i < n {
        OffsetBefore(parts, part, gap, i);
        Earlier(text, sep + part, Offset(parts, gap, i), parts[i]);
      }
    }
    forall i | 0 <= i < n ensures StandsAt(whole, EndOf(all, gap, i), sep) {
      OffsetBefore(parts, part, gap, i);
      if i < n - 1 {
        Earlier(text, sep + part, EndOf(parts, gap, i), sep);
      }
    }
  }

  lemma SameChars(a: string, b: string, at: nat, part: string, k: nat)
    requires StandsAt(a, at, part) && StandsAt(b, at, part) && at <= k < at + |part|
    ensures k < |a| && k < |b| && a[k] == b[k]
  {
    assert a[at..at + |part|][k - at] == b[at..at + |part|][k - at];
  }

  lemma {:induction false} SameAt(a: string, b: string, parts: seq<string>, sep: string, k: nat, i: nat)
    requires IsJoined(a, parts, sep) && IsJoined(b, parts, sep) && i < |parts| && k < EndOf(parts, |sep|, i)
    ensures k < |a| && k < |b| && a[k] == b[k]
  {
    hide StandsAt, Offset;
    var at := Offset(parts, |sep|, i);
    if k >= at {
      SameChars(a, b, at, parts[i], k);
    } else if i > 0 {
      OffsetOfNext(parts, |sep|, i - 1);
      var end := EndOf(parts, |sep|, i - 1);
      if k >= end {
        assert i - 1 < |parts| - 1;
        SameChars(a, b, end, sep, k);
      } else {
        SameAt(a, b, parts, sep, k, i - 1);
      }
    } else {
      OffsetOfFirst(parts, |sep|);
    }
  }

  /** There is one such text. */
  lemma JoinedIsUnique(a: string, b: string, parts: seq<string>, sep: string)
    requires IsJoined(a, parts, sep) && IsJoined(b, parts, sep)
    ensures a == b
  {
    hide StandsAt, Offset, EndOf;
    forall k | 0 <= k < |a| ensures a[k] == b[k] {
      SameAt(a, b, parts, sep, k, |parts| - 1);
    }
  }
}
