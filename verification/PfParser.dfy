/**
 * The channel parser of scripts/archive_layout_convert.py. A line comes with the shape its
 * pattern gives it; the patterns exclude one another.
 */
module PfParser {
  import opened Basics
  import opened Joining
  import Markdown

  /** A blank line is `Blank`, so no other text is. */
  datatype Line =
    | Title(name: string, text: string)
    | Derived
    | Month
    | Header(ts: string, speaker: string)
    | Attachment(file: string)
    | Rule
    | Blank
    | Other(text: string)

  datatype Message = Message(ts: string, speaker: string, text: string, attachments: seq<string>, line: nat)

  // ---- What the document says --------------------------------------------------------------------------

  predicate HasTitle(lines: seq<Line>, n: nat)
    requires n <= |lines|
  {
    exists j :: 0 <= j < n && lines[j].Title?
  }

  /** The first title names the channel; a later line of that shape is ordinary text. */
  predicate Naming(lines: seq<Line>, i: nat)
    requires i < |lines|
  {
    lines[i].Title? && !HasTitle(lines, i)
  }

  /** Line `i` is below a derived heading with no month heading in between. */
  ghost predicate InDerived(lines: seq<Line>, i: nat)
    requires i <= |lines|
  {
    exists d :: 0 <= d < i && lines[d].Derived? && forall j :: d < j < i ==> !lines[j].Month?
  }

  /** Line `i` begins a message. */
  ghost predicate Begins(lines: seq<Line>, i: nat)
    requires i < |lines|
  {
    lines[i].Header? && !InDerived(lines, i)
  }

  /** Line `i` ends whatever message is open. */
  ghost predicate Ends(lines: seq<Line>, i: nat)
    requires i < |lines|
  {
    lines[i].Derived? || lines[i].Month? || lines[i].Rule? || lines[i].Header?
  }

  /** The message begun at `h` is still open before line `i`. */
  ghost predicate Open(lines: seq<Line>, h: nat, i: nat)
    requires h < i <= |lines|
  {
    Begins(lines, h) && forall j :: h < j < i ==> !Ends(lines, j)
  }

  /** None of the messages begun in the first `k` lines is open before line `i`. */
  ghost predicate NoneOpen(lines: seq<Line>, k: nat, i: nat)
    requires k <= i <= |lines|
  {
    forall h :: 0 <= h < k ==> !Open(lines, h, i)
  }

  /** The text lines of the message begun at `h`, among the first `n` lines. */
  ghost function BodyOf(lines: seq<Line>, h: nat, n: nat): seq<string>
    requires n <= |lines|
  {
    if n <= h + 1 then []
    else
      var l := lines[n - 1];
      BodyOf(lines, h, n - 1)
      + (if Open(lines, h, n - 1) && (l.Other? || (l.Title? && !Naming(lines, n - 1))) then [l.text] else [])
  }

  ghost function FilesOf(lines: seq<Line>, h: nat, n: nat): seq<string>
    requires n <= |lines|
  {
    if n <= h + 1 then []
    else
      FilesOf(lines, h, n - 1)
      + (if Open(lines, h, n - 1) && lines[n - 1].Attachment? then [lines[n - 1].file] else [])
  }

  /** Lines are trimmed and run together. */
  function JoinText(body: seq<string>): string {
    if body == [] then ""
    else if |body| == 1 then Markdown.Trim(body[0])
    else Markdown.Trim(body[0]) + " " + JoinText(body[1..])
  }

  ghost function MessageAt(lines: seq<Line>, h: nat, n: nat): Message
    requires h < |lines| && lines[h].Header? && n <= |lines|
  {
    Message(lines[h].ts, lines[h].speaker, JoinText(BodyOf(lines, h, n)), FilesOf(lines, h, n), h + 1)
  }

  /** The messages begun in the first `k` lines, as the first `n` lines leave them. */
  ghost function MessagesOf(lines: seq<Line>, k: nat, n: nat): seq<Message>
    requires k <= n <= |lines|
  {
    if k == 0 then []
    else MessagesOf(lines, k - 1, n) + (if Begins(lines, k - 1) then [MessageAt(lines, k - 1, n)] else [])
  }

  ghost function DroppedIn(lines: seq<Line>, n: nat): nat
    requires n <= |lines|
  {
    if n == 0 then 0
    else
      var l := lines[n - 1];
      DroppedIn(lines, n - 1)
      + (if InDerived(lines, n - 1) && !l.Derived? && !l.Month? && !l.Blank? && !Naming(lines, n - 1) then 1 else 0)
  }

  // ---- The loop --------------------------------------------------------------------------------------------

  datatype Current = Current(ts: string, speaker: string, line: nat)

  function Flushed(messages: seq<Message>, current: Option<Current>, body: seq<string>, files: seq<string>): seq<Message> {
    match current
    case None => messages
    case Some(c) => messages + [Message(c.ts, c.speaker, JoinText(body), files, c.line)]
  }

  /** The open message, if any: where it began, and that it has been kept up to date. */
  ghost predicate Tracks(lines: seq<Line>, i: nat, messages: seq<Message>,
                         current: Option<Current>, body: seq<string>, files: seq<string>)
    requires i <= |lines|
  {
    match current
    case None =>
      && body == files == []
      && messages == MessagesOf(lines, i, i)
      && NoneOpen(lines, i, i)
    case Some(c) =>
      && 0 < c.line <= i
      && Open(lines, c.line - 1, i)
      && c.ts == lines[c.line - 1].ts && c.speaker == lines[c.line - 1].speaker
      && body == BodyOf(lines, c.line - 1, i) && files == FilesOf(lines, c.line - 1, i)
      && messages == MessagesOf(lines, c.line - 1, i)
  }

  lemma DerivedNext(lines: seq<Line>, i: nat)
    requires i < |lines|
    ensures InDerived(lines, i + 1) <==> lines[i].Derived? || (InDerived(lines, i) && !lines[i].Month?)
  {
    if lines[i].Derived? {
      assert InDerived(lines, i + 1);
    } else if InDerived(lines, i) && !lines[i].Month? {
      var d :| 0 <= d < i && lines[d].Derived? && forall j :: d < j < i ==> !lines[j].Month?;
      assert InDerived(lines, i + 1);
    }
  }

  lemma OpenNext(lines: seq<Line>, h: nat, i: nat)
    requires h < i < |lines|
    ensures Open(lines, h, i + 1) <==> Open(lines, h, i) && !Ends(lines, i)
  {
    hide Begins, Ends;
  }

  /** At most one message is open. */
  lemma OnlyOneOpen(lines: seq<Line>, h: nat, k: nat, i: nat)
    requires h < i <= |lines| && k < i && Open(lines, h, i) && Open(lines, k, i)
    ensures h == k
  {
    hide InDerived;
    assert Ends(lines, h) && Ends(lines, k);
  }

  /** A message that is not open before line `i` gets nothing from it. */
  lemma BodyStays(lines: seq<Line>, h: nat, i: nat)
    requires h <= i < |lines| && (h < i ==> !Open(lines, h, i) || Ends(lines, i))
    ensures BodyOf(lines, h, i + 1) == BodyOf(lines, h, i) && FilesOf(lines, h, i + 1) == FilesOf(lines, h, i)
  {
    hide Open;
  }

  lemma {:induction false} ClosedUnchanged(lines: seq<Line>, k: nat, i: nat)
    requires k <= i < |lines|
    requires forall h :: 0 <= h < k ==> !Open(lines, h, i) || Ends(lines, i)
    ensures MessagesOf(lines, k, i + 1) == MessagesOf(lines, k, i)
  {
    hide Open, Begins, BodyOf, FilesOf, Ends;
    if k > 0 {
      ClosedUnchanged(lines, k - 1, i);
      BodyStays(lines, k - 1, i);
    }
  }

  /** Since the open message began no other has. */
  lemma {:induction false} NoneBegunSince(lines: seq<Line>, h: nat, k: nat, n: nat)
    requires h < k <= n <= |lines| && Open(lines, h, k)
    ensures Begins(lines, h) && MessagesOf(lines, k, n) == MessagesOf(lines, h, n) + [MessageAt(lines, h, n)]
  {
    hide InDerived, BodyOf, FilesOf;
    if k > h + 1 {
      assert !Ends(lines, k - 1);
      NoneBegunSince(lines, h, k - 1, n);
    }
  }

  lemma EndClosesAll(lines: seq<Line>, i: nat)
    requires i < |lines| && (Ends(lines, i) || NoneOpen(lines, i, i))
    ensures NoneOpen(lines, i, i + 1)
  {
    hide Open, Ends;
    var n := i + 1;
    forall h | 0 <= h < i ensures !Open(lines, h, n) {
      OpenNext(lines, h, i);
    }
  }

  /** Where something ends, flushing leaves all the messages so far, none of them open. */
  lemma FlushedIs(lines: seq<Line>, i: nat, messages: seq<Message>,
                  current: Option<Current>, body: seq<string>, files: seq<string>)
    requires i < |lines| && Tracks(lines, i, messages, current, body, files) && Ends(lines, i)
    ensures Flushed(messages, current, body, files) == MessagesOf(lines, i, i + 1)
    ensures NoneOpen(lines, i, i + 1)
  {
    hide Open, Ends, Begins, BodyOf, FilesOf, MessagesOf, JoinText;
    EndClosesAll(lines, i);
    match current
    case None =>
      ClosedUnchanged(lines, i, i);
    case Some(c) =>
      var h := c.line - 1;
      ClosedUnchanged(lines, h, i);
      NoneBegunSince(lines, h, i, i + 1);
      BodyStays(lines, h, i);
  }

  lemma AfterEnd(lines: seq<Line>, i: nat, messages: seq<Message>,
                 current: Option<Current>, body: seq<string>, files: seq<string>)
    requires i < |lines| && Tracks(lines, i, messages, current, body, files) && Ends(lines, i) && !Begins(lines, i)
    ensures Tracks(lines, i + 1, Flushed(messages, current, body, files), None, [], [])
  {
    FlushedIs(lines, i, messages, current, body, files);
    assert !Open(lines, i, i + 1);
    hide Open, Ends, Begins, BodyOf, FilesOf, Flushed, InDerived;
    assert MessagesOf(lines, i + 1, i + 1) == MessagesOf(lines, i, i + 1);
  }

  lemma AfterHeader(lines: seq<Line>, i: nat, messages: seq<Message>,
                    current: Option<Current>, body: seq<string>, files: seq<string>)
    requires i < |lines| && Tracks(lines, i, messages, current, body, files) && Begins(lines, i)
    ensures Tracks(lines, i + 1, Flushed(messages, current, body, files),
                   Some(Current(lines[i].ts, lines[i].speaker, i + 1)), [], [])
  {
    FlushedIs(lines, i, messages, current, body, files);
    hide Flushed, InDerived, MessagesOf;
  }

  lemma AfterNothing(lines: seq<Line>, i: nat, messages: seq<Message>)
    requires i < |lines| && Tracks(lines, i, messages, None, [], []) && !Begins(lines, i)
    ensures Tracks(lines, i + 1, messages, None, [], [])
  {
    EndClosesAll(lines, i);
    assert !Open(lines, i, i + 1);
    hide Open, Ends, Begins, BodyOf, FilesOf;
    ClosedUnchanged(lines, i, i);
    assert MessagesOf(lines, i + 1, i + 1) == MessagesOf(lines, i, i + 1);
  }

  function TextIn(lines: seq<Line>, i: nat): seq<string>
    requires i < |lines|
  {
    var l := lines[i];
    if l.Other? || (l.Title? && !Naming(lines, i)) then [l.text] else []
  }

  function FileIn(l: Line): seq<string> { if l.Attachment? then [l.file] else [] }

  lemma AfterLine(lines: seq<Line>, i: nat, messages: seq<Message>, c: Current, body: seq<string>, files: seq<string>)
    requires i < |lines| && Tracks(lines, i, messages, Some(c), body, files) && !Ends(lines, i)
    ensures Tracks(lines, i + 1, messages, Some(c), body + TextIn(lines, i), files + FileIn(lines[i]))
  {
    var h := c.line - 1;
    OpenNext(lines, h, i);
    forall g | 0 <= g < h ensures !Open(lines, g, i) {
      if Open(lines, g, i) {
        OnlyOneOpen(lines, g, h, i);
      }
    }
    hide Open, Ends, Begins, MessagesOf;
    ClosedUnchanged(lines, h, i);
  }

  /** In a derived section no message is open. */
  lemma DerivedCloses(lines: seq<Line>, h: nat, i: nat)
    requires h < i <= |lines| && InDerived(lines, i)
    ensures !Open(lines, h, i)
  {
    var d :| 0 <= d < i && lines[d].Derived? && forall j :: d < j < i ==> !lines[j].Month?;
    if d < h {
      assert InDerived(lines, h);
    } else {
      assert Ends(lines, d);
    }
  }

  lemma NothingOpenInDerived(lines: seq<Line>, i: nat, messages: seq<Message>,
                             current: Option<Current>, body: seq<string>, files: seq<string>)
    requires i <= |lines| && Tracks(lines, i, messages, current, body, files) && InDerived(lines, i)
    ensures current.None? && body == [] && files == []
  {
    hide Open, InDerived;
    match current
    case None =>
    case Some(c) => DerivedCloses(lines, c.line - 1, i);
  }

  lemma TrackedAll(lines: seq<Line>, messages: seq<Message>,
                   current: Option<Current>, body: seq<string>, files: seq<string>)
    requires Tracks(lines, |lines|, messages, current, body, files)
    ensures Flushed(messages, current, body, files) == MessagesOf(lines, |lines|, |lines|)
  {
    hide Open, BodyOf, FilesOf, MessagesOf, JoinText;
    match current
    case None =>
    case Some(c) => NoneBegunSince(lines, c.line - 1, |lines|, |lines|);
  }

  lemma TracksNothing(lines: seq<Line>)
    ensures Tracks(lines, 0, [], None, [], []) && !InDerived(lines, 0)
  {
  }

  /** The name is that of the first title among the first `n` lines. */
  predicate Named(lines: seq<Line>, n: nat, name: string)
    requires n <= |lines|
  {
    && (name != "" <==> HasTitle(lines, n))
    && (forall j :: 0 <= j < n && Naming(lines, j) ==> name == "#" + lines[j].name)
  }

  lemma NamedNext(lines: seq<Line>, i: nat, name: string)
    requires i < |lines| && Named(lines, i, name)
    ensures name == "" && lines[i].Title? ==> Named(lines, i + 1, "#" + lines[i].name) && Naming(lines, i)
    ensures !(name == "" && lines[i].Title?) ==> Named(lines, i + 1, name) && !Naming(lines, i)
  {
  }

  lemma DroppedNext(lines: seq<Line>, i: nat)
    requires i < |lines|
    ensures DroppedIn(lines, i + 1)
         == DroppedIn(lines, i)
            + (if InDerived(lines, i) && !lines[i].Derived? && !lines[i].Month? && !lines[i].Blank? && !Naming(lines, i) then 1 else 0)
  {
    hide InDerived, Naming;
  }

  method Parse(lines: seq<Line>) returns (name: string, messages: seq<Message>, dropped: nat)
    ensures messages == MessagesOf(lines, |lines|, |lines|)
    ensures dropped == DroppedIn(lines, |lines|)
    ensures Named(lines, |lines|, name)
  {
    name, messages, dropped := "", [], 0;
    var current: Option<Current>, body: seq<string>, files: seq<string> := None, [], [];
    var inDerived := false;
    TracksNothing(lines);
    assert Named(lines, 0, name);
    hide Tracks, InDerived, Flushed, MessagesOf, Open, Begins, Ends, Named, HasTitle, Naming, DroppedIn;
    for i := 0 to |lines|
      invariant Named(lines, i, name)
      invariant inDerived == InDerived(lines, i)
      invariant Tracks(lines, i, messages, current, body, files)
      invariant dropped == DroppedIn(lines, i)
    {
      var line := lines[i];
      DerivedNext(lines, i);
      NamedNext(lines, i, name);
      DroppedNext(lines, i);
      if name == "" && line.Title? {
        name := "#" + line.name;
        Unaffected(lines, i, messages, current, body, files);
        continue;
      }
      if line.Derived? {
        AfterEnd(lines, i, messages, current, body, files);
        messages, current, body, files := Flushed(messages, current, body, files), None, [], [];
        inDerived := true;
      } else if line.Month? {
        AfterEnd(lines, i, messages, current, body, files);
        messages, current, body, files := Flushed(messages, current, body, files), None, [], [];
        inDerived := false;
      } else if inDerived {
        NothingOpenInDerived(lines, i, messages, current, body, files);
        AfterNothing(lines, i, messages);
        dropped := dropped + if line.Blank? then 0 else 1;
      } else if line.Header? {
        AfterHeader(lines, i, messages, current, body, files);
        messages := Flushed(messages, current, body, files);
        current, body, files := Some(Current(line.ts, line.speaker, i + 1)), [], [];
      } else if current.None? {
        AfterNothing(lines, i, messages);
      } else if line.Attachment? {
        Unaffected(lines, i, messages, current, body, files);
        files := files + [line.file];
      } else if line.Rule? {
        AfterEnd(lines, i, messages, current, body, files);
        messages, current, body, files := Flushed(messages, current, body, files), None, [], [];
      } else if line.Blank? {
        Unaffected(lines, i, messages, current, body, files);
      } else {
        Unaffected(lines, i, messages, current, body, files);
        body := body + [line.text];
      }
    }
    TrackedAll(lines, messages, current, body, files);
    messages := Flushed(messages, current, body, files);
  }

  /** A line that neither begins nor ends a message is added to the one that is open, if any. */
  lemma Unaffected(lines: seq<Line>, i: nat, messages: seq<Message>,
                   current: Option<Current>, body: seq<string>, files: seq<string>)
    requires i < |lines| && Tracks(lines, i, messages, current, body, files) && !Ends(lines, i)
    ensures current.None? ==> Tracks(lines, i + 1, messages, current, body, files)
    ensures current.Some? ==>
      Tracks(lines, i + 1, messages, current, body + TextIn(lines, i), files + FileIn(lines[i]))
  {
    match current
    case None =>
      assert body == [] && files == [];
      hide Tracks, Open, InDerived;
      AfterNothing(lines, i, messages);
    case Some(c) =>
      hide Tracks, Open;
      AfterLine(lines, i, messages, c, body, files);
  }

  // ---- What the result is ----------------------------------------------------------------------------------

  /** One message per header outside derived sections, in the order of the source lines. */
  lemma {:induction false} OneMessagePerHeader(lines: seq<Line>, k: nat, n: nat)
    requires k <= n <= |lines|
    ensures var ms := MessagesOf(lines, k, n);
      && (forall i, j :: 0 <= i < j < |ms| ==> ms[i].line < ms[j].line)
      && (forall m :: m in ms ==> 0 < m.line <= k && Begins(lines, m.line - 1) && m == MessageAt(lines, m.line - 1, n))
      && (forall h :: 0 <= h < k && Begins(lines, h) ==> MessageAt(lines, h, n) in ms)
  {
    hide Begins, MessageAt, MessagesOf;
    if k > 0 {
      var before := MessagesOf(lines, k - 1, n);
      OneMessagePerHeader(lines, k - 1, n);
      LastMessage(lines, k, n);
    } else {
      NoMessages(lines, n);
    }
  }

  lemma NoMessages(lines: seq<Line>, n: nat)
    requires n <= |lines|
    ensures MessagesOf(lines, 0, n) == []
  {
  }

  lemma LastMessage(lines: seq<Line>, k: nat, n: nat)
    requires 0 < k <= n <= |lines|
    ensures Begins(lines, k - 1) ==> MessageAt(lines, k - 1, n).line == k
    ensures Begins(lines, k - 1) ==>
      MessagesOf(lines, k, n) == MessagesOf(lines, k - 1, n) + [MessageAt(lines, k - 1, n)]
    ensures !Begins(lines, k - 1) ==> MessagesOf(lines, k, n) == MessagesOf(lines, k - 1, n)
  {
    hide BodyOf, FilesOf, JoinText, InDerived;
  }

  /** A line with something to keep, if a message is open for it. */
  predicate Keeps(lines: seq<Line>, i: nat)
    requires i < |lines|
  {
    TextIn(lines, i) != [] || FileIn(lines[i]) != []
  }

  /** The numbers of the lines that go into the message begun at `h`. */
  ghost function Owned(lines: seq<Line>, h: nat, n: nat): seq<nat>
    requires n <= |lines|
  {
    if n <= h + 1 then []
    else Owned(lines, h, n - 1) + (if Open(lines, h, n - 1) && Keeps(lines, n - 1) then [n - 1] else [])
  }

  predicate Below(at: seq<nat>, n: nat) { forall j :: 0 <= j < |at| ==> at[j] < n }

  function TextsAt(lines: seq<Line>, at: seq<nat>): seq<string>
    requires Below(at, |lines|)
  {
    if at == [] then [] else TextsAt(lines, at[..|at| - 1]) + TextIn(lines, at[|at| - 1])
  }

  function FilesAt(lines: seq<Line>, at: seq<nat>): seq<string>
    requires Below(at, |lines|)
  {
    if at == [] then [] else FilesAt(lines, at[..|at| - 1]) + FileIn(lines[at[|at| - 1]])
  }

  lemma {:induction false} OwnedBelow(lines: seq<Line>, h: nat, n: nat)
    requires n <= |lines|
    ensures Below(Owned(lines, h, n), n) && forall j :: 0 <= j < |Owned(lines, h, n)| ==> h < Owned(lines, h, n)[j]
  {
    hide Open, Keeps;
    if n > h + 1 {
      OwnedBelow(lines, h, n - 1);
    }
  }

  lemma AtNext(lines: seq<Line>, at: seq<nat>, i: nat)
    requires i < |lines| && Below(at, i)
    ensures Below(at + [i], |lines|)
    ensures TextsAt(lines, at + [i]) == TextsAt(lines, at) + TextIn(lines, i)
    ensures FilesAt(lines, at + [i]) == FilesAt(lines, at) + FileIn(lines[i])
  {
    assert (at + [i])[..|at + [i]| - 1] == at;
    hide TextIn, FileIn;
  }

  /** The body and the attachments of a message are its own lines, in order, each in one of the two. */
  lemma {:induction false} MessageIsItsLines(lines: seq<Line>, h: nat, n: nat)
    requires n <= |lines|
    ensures Below(Owned(lines, h, n), |lines|)
    ensures BodyOf(lines, h, n) == TextsAt(lines, Owned(lines, h, n))
    ensures FilesOf(lines, h, n) == FilesAt(lines, Owned(lines, h, n))
  {
    hide Open, TextIn, FileIn, TextsAt, FilesAt, Keeps, BodyOf, FilesOf, Owned;
    OwnedBelow(lines, h, n);
    if n <= h + 1 {
      NothingOwned(lines, h, n);
    } else {
      OwnedBelow(lines, h, n - 1);
      MessageIsItsLines(lines, h, n - 1);
      AtNext(lines, Owned(lines, h, n - 1), n - 1);
      BodyNext(lines, h, n - 1);
    }
  }

  function AllTrimmed(body: seq<string>): (r: seq<string>)
    ensures |r| == |body|
  {
    seq(|body|, i requires 0 <= i < |body| => Markdown.Trim(body[i]))
  }

  lemma {:induction false} TextIsJoined(body: seq<string>)
    ensures IsJoined(JoinText(body), AllTrimmed(body), " ")
  {
    hide IsJoined, Markdown.Trim;
    if body == [] {
      NothingJoined(" ");
      assert AllTrimmed([]) == [];
    } else if |body| == 1 {
      JoinedOne(Markdown.Trim(body[0]), " ");
      assert AllTrimmed(body) == [Markdown.Trim(body[0])];
    } else {
      TextIsJoined(body[1..]);
      JoinedFront(Markdown.Trim(body[0]), JoinText(body[1..]), AllTrimmed(body[1..]), " ");
      assert AllTrimmed(body) == [Markdown.Trim(body[0])] + AllTrimmed(body[1..]);
    }
  }

  lemma NothingJoined(sep: string)
    ensures IsJoined("", [], sep)
  {
  }

  /**
   * The text of a message is all of its text lines, trimmed, in order, one space between them, and
   * nothing else; its attachments are all the files its lines name.
   */
  lemma TextIsItsLines(lines: seq<Line>, m: Message)
    requires m in MessagesOf(lines, |lines|, |lines|)
    ensures 0 < m.line <= |lines|
    ensures var own := Owned(lines, m.line - 1, |lines|);
      && Below(own, |lines|)
      && IsJoined(m.text, AllTrimmed(TextsAt(lines, own)), " ")
      && m.attachments == FilesAt(lines, own)
  {
    hide MessagesOf, Owned, TextsAt, FilesAt, BodyOf, FilesOf, JoinText, IsJoined, Begins, AllTrimmed;
    OneMessagePerHeader(lines, |lines|, |lines|);
    BeginsAtHeader(lines, m.line - 1);
    MessageIsItsLines(lines, m.line - 1, |lines|);
    TextIsJoined(BodyOf(lines, m.line - 1, |lines|));
  }

  lemma BeginsAtHeader(lines: seq<Line>, i: nat)
    requires i < |lines| && Begins(lines, i)
    ensures lines[i].Header?
  {
  }

  lemma NothingOwned(lines: seq<Line>, h: nat, n: nat)
    requires n <= |lines| && n <= h + 1
    ensures BodyOf(lines, h, n) == FilesOf(lines, h, n) == [] && Owned(lines, h, n) == []
    ensures TextsAt(lines, []) == FilesAt(lines, []) == []
  {
  }

  lemma BodyNext(lines: seq<Line>, h: nat, i: nat)
    requires h < i < |lines|
    ensures var kept := Open(lines, h, i) && Keeps(lines, i);
      && BodyOf(lines, h, i + 1) == (if kept then BodyOf(lines, h, i) + TextIn(lines, i) else BodyOf(lines, h, i))
      && FilesOf(lines, h, i + 1) == (if kept then FilesOf(lines, h, i) + FileIn(lines[i]) else FilesOf(lines, h, i))
      && Owned(lines, h, i + 1) == (if kept then Owned(lines, h, i) + [i] else Owned(lines, h, i))
  {
    hide Open, Naming;
  }

  /** The lines of all the messages begun in the first `k` lines. */
  ghost function AllOwned(lines: seq<Line>, k: nat, n: nat): seq<nat>
    requires k <= n <= |lines|
  {
    if k == 0 then [] else AllOwned(lines, k - 1, n) + Owned(lines, k - 1, n)
  }

  ghost predicate SomeOpen(lines: seq<Line>, i: nat)
    requires i <= |lines|
  {
    exists h :: 0 <= h < i && Open(lines, h, i)
  }

  /** The lines with something to keep while a message is open. */
  ghost function KeptLines(lines: seq<Line>, n: nat): seq<nat>
    requires n <= |lines|
  {
    if n == 0 then []
    else KeptLines(lines, n - 1) + (if SomeOpen(lines, n - 1) && Keeps(lines, n - 1) then [n - 1] else [])
  }

  lemma OwnedStays(lines: seq<Line>, h: nat, i: nat)
    requires h <= i < |lines| && (h < i ==> !Open(lines, h, i) || !Keeps(lines, i))
    ensures Owned(lines, h, i + 1) == Owned(lines, h, i)
  {
    hide Open, Keeps;
  }

  lemma {:induction false} AllOwnedStays(lines: seq<Line>, k: nat, i: nat)
    requires k <= i < |lines| && (NoneOpen(lines, k, i) || !Keeps(lines, i))
    ensures AllOwned(lines, k, i + 1) == AllOwned(lines, k, i)
  {
    hide Open, Owned, Keeps;
    if k > 0 {
      assert NoneOpen(lines, k, i) ==> NoneOpen(lines, k - 1, i);
      AllOwnedStays(lines, k - 1, i);
      OwnedStays(lines, k - 1, i);
    }
  }

  /** A header that began nothing owns nothing. */
  lemma {:induction false} OwnsNothing(lines: seq<Line>, h: nat, n: nat)
    requires h < n <= |lines| && !Begins(lines, h)
    ensures Owned(lines, h, n) == []
  {
    hide Begins, Keeps;
    if n > h + 1 {
      OwnsNothing(lines, h, n - 1);
    }
  }

  lemma {:induction false} OnlyOpenOwns(lines: seq<Line>, h: nat, k: nat, n: nat)
    requires h < k <= n <= |lines| && Open(lines, h, k)
    ensures AllOwned(lines, k, n) == AllOwned(lines, h, n) + Owned(lines, h, n)
  {
    hide InDerived, Owned;
    if k > h + 1 {
      assert !Ends(lines, k - 1);
      OnlyOpenOwns(lines, h, k - 1, n);
      OwnsNothing(lines, k - 1, n);
    }
  }

  lemma KeptStep(lines: seq<Line>, i: nat)
    requires i < |lines|
    ensures AllOwned(lines, i, i + 1)
         == AllOwned(lines, i, i) + (if SomeOpen(lines, i) && Keeps(lines, i) then [i] else [])
  {
    hide Open, Keeps, AllOwned, Owned;
    if SomeOpen(lines, i) && Keeps(lines, i) {
      var h: nat :| h < i && Open(lines, h, i);
      forall g | 0 <= g < h ensures !Open(lines, g, i) {
        if Open(lines, g, i) {
          OnlyOneOpen(lines, g, h, i);
        }
      }
      OnlyOpenOwns(lines, h, i, i);
      OnlyOpenOwns(lines, h, i, i + 1);
      AllOwnedStays(lines, h, i);
      OwnedGrows(lines, h, i);
      Assoc(AllOwned(lines, h, i), Owned(lines, h, i), [i]);
    } else {
      AllOwnedStays(lines, i, i);
    }
  }

  lemma OwnedGrows(lines: seq<Line>, h: nat, i: nat)
    requires h < i < |lines| && Open(lines, h, i) && Keeps(lines, i)
    ensures Owned(lines, h, i + 1) == Owned(lines, h, i) + [i]
  {
  }

  /**
   * Every kept line goes into exactly one message: read message by message, the lines are all
   * the kept lines of the document in order.
   */
  lemma {:induction false} EveryLineInOneMessage(lines: seq<Line>, n: nat)
    requires n <= |lines|
    ensures AllOwned(lines, n, n) == KeptLines(lines, n)
  {
    hide Keeps, Owned, SomeOpen;
    if n > 0 {
      EveryLineInOneMessage(lines, n - 1);
      KeptStep(lines, n - 1);
      NewestOwnsNothing(lines, n);
    }
  }

  lemma NewestOwnsNothing(lines: seq<Line>, n: nat)
    requires 0 < n <= |lines|
    ensures Owned(lines, n - 1, n) == []
  {
  }

  /** No line of a derived section is kept; what it counts for is `dropped`. */
  lemma {:induction false} DerivedIsNotKept(lines: seq<Line>, n: nat)
    requires n <= |lines|
    ensures forall i :: i in KeptLines(lines, n) ==> i < n && !InDerived(lines, i)
  {
    hide Keeps, Open, InDerived;
    if n > 0 {
      DerivedIsNotKept(lines, n - 1);
      if SomeOpen(lines, n - 1) && InDerived(lines, n - 1) {
        var h: nat :| h < n - 1 && Open(lines, h, n - 1);
        DerivedCloses(lines, h, n - 1);
      }
    }
  }
}
