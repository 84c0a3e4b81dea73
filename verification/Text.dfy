/** Text as the files hold it: one `char` stands for one byte, `NL` is the line break. */
module Text {
  const NL := '\n'

  predicate EndsWith(s: string, t: string) {
    |t| <= |s| && s[|s| - |t|..] == t
  }

  /** Empty, or closed by a line break: nothing is left hanging on the last line. */
  predicate Whole(s: string) {
    s == "" || s[|s| - 1] == NL
  }

  /** Where the first line of `s` stops. */
  function LineEnd(s: string): (k: nat)
    ensures k <= |s|
    ensures NL !in s[..k]
    ensures k < |s| ==> s[k] == NL
  {
    if s == "" || s[0] == NL then 0
    else
      var k := LineEnd(s[1..]) + 1;
      assert s[..k] == [s[0]] + s[1..][..k - 1];
      k
  }

  /** The lines of `s` without their breaks; an unfinished last line counts when it is not empty. */
  function Lines(s: string): (ls: seq<string>) {
    if s == "" then []
    else
      var k := LineEnd(s);
      if k == |s| then [s] else [s[..k]] + Lines(s[k + 1..])
  }

  /** Every line written back with its break. */
  function Closed(ls: seq<string>): string {
    if ls == [] then "" else ls[0] + [NL] + Closed(ls[1..])
  }

  lemma {:induction false} LineEndOf(line: string, rest: string)
    requires NL !in line
    ensures LineEnd(line + [NL] + rest) == |line|
  {
    if line != "" {
      LineEndOf(line[1..], rest);
      assert (line + [NL] + rest)[1..] == line[1..] + [NL] + rest;
    }
  }

  /** Text that ends on a line break does not affect how what follows is cut into lines. */
  lemma {:induction false} LinesConcat(a: string, b: string)
    requires Whole(a)
    ensures Lines(a + b) == Lines(a) + Lines(b)
  {
    if a == "" {
      assert a + b == b;
    } else {
      var k := LineEnd(a);
      assert k < |a|;
      assert a + b == a[..k] + [NL] + (a[k + 1..] + b);
      LineEndOf(a[..k], a[k + 1..] + b);
      assert (a + b)[k + 1..] == a[k + 1..] + b;
      assert (a + b)[..k] == a[..k];
      assert Whole(a[k + 1..]);
      LinesConcat(a[k + 1..], b);
    }
  }

  lemma LinesOfOne(line: string)
    requires NL !in line
    ensures Lines(line + [NL]) == [line]
  {
    LineEndOf(line, "");
    assert line + [NL] + "" == line + [NL];
    assert (line + [NL])[..|line|] == line;
    assert (line + [NL])[|line| + 1..] == "";
  }

  lemma {:induction false} LinesUnbroken(s: string)
    ensures forall line :: line in Lines(s) ==> NL !in line
  {
    if s != "" && LineEnd(s) < |s| {
      LinesUnbroken(s[LineEnd(s) + 1..]);
    }
  }

  lemma {:induction false} ClosedConcat(a: seq<string>, b: seq<string>)
    ensures Closed(a + b) == Closed(a) + Closed(b)
  {
    if a == [] {
      assert a + b == b;
    } else {
      assert (a + b)[1..] == a[1..] + b;
      ClosedConcat(a[1..], b);
    }
  }

  lemma ClosedOne(line: string)
    ensures Closed([line]) == line + [NL]
  {
    assert Closed([line][1..]) == "";
    assert line + [NL] + "" == line + [NL];
  }

  lemma {:induction false} ClosedWhole(ls: seq<string>)
    ensures Whole(Closed(ls))
  {
    if ls != [] {
      ClosedWhole(ls[1..]);
    }
  }

  /** Writing lines and cutting them again gives the same lines. */
  lemma {:induction false} LinesOfClosed(ls: seq<string>)
    requires forall i :: 0 <= i < |ls| ==> NL !in ls[i]
    ensures Lines(Closed(ls)) == ls
  {
    if ls != [] {
      LinesOfOne(ls[0]);
      LinesConcat(ls[0] + [NL], Closed(ls[1..]));
      LinesOfClosed(ls[1..]);
    }
  }

  lemma EndsWithConcat(a: string, b: string, t: string)
    requires EndsWith(b, t)
    ensures EndsWith(a + b, t)
  {
    assert (a + b)[|a + b| - |t|..] == b[|b| - |t|..];
  }

  lemma EndsSplit(s: string, t: string)
    requires EndsWith(s, t)
    ensures s == s[..|s| - |t|] + t
  {
  }

  /** Text that ends with the beginning of `data` ends with `data` once the rest is added. */
  lemma Resumed(s: string, start: string, data: string)
    requires EndsWith(s, start) && start <= data
    ensures EndsWith(s + data[|start|..], data)
  {
    assert s + data[|start|..] == s[..|s| - |start|] + data;
  }

  lemma EndsWithTrans(s: string, t: string, u: string)
    ensures EndsWith(s, t) && EndsWith(t, u) ==> EndsWith(s, u)
  {
    if EndsWith(s, t) && EndsWith(t, u) {
      assert s[|s| - |u|..] == t[|t| - |u|..];
    }
  }

  /** Two endings of one text that are equally long are the same ending. */
  lemma EndingsAgree(s: string, t: string, u: string)
    requires EndsWith(s, t) && EndsWith(s, u) && |t| == |u|
    ensures t == u
  {
  }
}
