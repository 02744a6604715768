/** Error sessions: a stack of frames kept flat in one linked list, newest entry first. */
module ErrorSessions {
  import opened Bytes

  /** What is reported; the annotation is empty until one is added. */
  datatype Report = Report(code: nat, warning: bool, text: string, annotation: string)
  datatype Entry = Entry(report: Report, session: int)

  const LOCAL_LABEL_FORWARD_REF := 0x100
  const LABEL_NOT_FOUND := 0x106
  const INDEX_OFFSET_EXCEEDED := 0x121
  const RECURSION_DEPTH := 0x129

  /** Problems that a second pass may cure. */
  predicate Curable(code: nat) {
    code == LOCAL_LABEL_FORWARD_REF || code == LABEL_NOT_FOUND || code == INDEX_OFFSET_EXCEEDED
    || code == 0 || code == RECURSION_DEPTH
  }

  // ---------- the flat list ----------

  /** How many entries at the head of the list belong to session n. */
  function Leading(list: seq<Entry>, n: int): (k: nat)
    ensures k <= |list| && (forall i :: 0 <= i < k ==> list[i].session == n)
    ensures k < |list| ==> list[k].session != n
  {
    if list == [] || list[0].session != n then 0 else 1 + Leading(list[1..], n)
  }

  /** The list after replaying session n > 1: its leading entries move down one session. */
  function MovedDown(list: seq<Entry>, n: int): (r: seq<Entry>)
    ensures |r| == |list|
  {
    seq(|list|, i requires 0 <= i < |list| =>
      if i < Leading(list, n) then list[i].(session := n - 1) else list[i])
  }

  /** Entries come in non-increasing session order, none above the current session. */
  ghost predicate Ordered(list: seq<Entry>, session: int) {
    && (forall i :: 0 <= i < |list| ==> list[i].session <= session)
    && (forall i, j :: 0 <= i < j < |list| ==> list[i].session >= list[j].session)
  }

  function OfSession(list: seq<Entry>, n: int): seq<Entry> {
    if list == [] then []
    else (if list[0].session == n then [list[0]] else []) + OfSession(list[1..], n)
  }

  class Sessions {
    var list: seq<Entry>
    var session: int
    var printed: seq<Report>

    constructor ()
      ensures list == [] && session == 0 && printed == []
    {
      list, session, printed := [], 0, [];
    }

    ghost function State(): FlatState
      reads this
    {
      FlatState(list, session)
    }

    /** StartSPASMErrorSession. */
    method Start() returns (n: int)
      modifies this
      ensures n == session == old(session) + 1 && list == old(list) && printed == old(printed)
      ensures State() == OnList(old(State()), StartStep)
    {
      session := session + 1;
      n := session;
    }

    /** SetLastSPASMProblem: success is no problem, anything else goes to the head of the list. */
    method SetProblem(report: Report)
      modifies this
      ensures State() == OnList(old(State()), ReportStep(report)) && printed == old(printed)
    {
      if report.code == 0 {
        return;
      }
      list := [Entry(report, session)] + list;
    }

    /** GetSPASMErrorSessionErrorCount. */
    method ErrorCount(n: int) returns (count: nat)
      ensures count == |Problems(list[..Leading(list, n)])|
    {
      var at := 0;
      count := 0;
      while at < |list| && list[at].session == n
        invariant at <= Leading(list, n)
        invariant count == |Problems(list[..at])|
      {
        ProblemsGrow(list, at);
        if list[at].report.code != 0 {
          count := count + 1;
        }
        at := at + 1;
      }
    }

    /** IsSPASMErrorSessionFatal. */
    method IsFatal(n: int) returns (fatal: bool)
      ensures fatal <==> exists i :: 0 <= i < Leading(list, n) && !Curable(list[i].report.code)
    {
      var at := 0;
      fatal := false;
      while at < |list| && list[at].session == n
        invariant at <= Leading(list, n)
        invariant !fatal && forall i :: 0 <= i < at ==> Curable(list[i].report.code)
      {
        if !Curable(list[at].report.code) {
          return true;
        }
        at := at + 1;
      }
    }

    /** ReplaySPASMErrorSession: session 1 is printed oldest first, any other moves down one. */
    method Replay(n: int)
      modifies this
      ensures session == old(session)
      ensures n == 1 ==> list == old(list) && printed == old(printed) + Reverse(Reports(OfSession(list, 1)))
      ensures n != 1 ==> list == MovedDown(old(list), n) && printed == old(printed)
      ensures n == session ==> State() == OnList(old(State()), ReplayStep)
    {
      if n == 1 {
        PrintFrom(0);
        assert list[0..] == list;
      } else {
        var at := 0;
        ghost var before := list;
        while at < |list| && list[at].session == n
          invariant |list| == |before| && at <= Leading(before, n)
          invariant forall i :: 0 <= i < at ==> list[i] == before[i].(session := n - 1)
          invariant forall i :: at <= i < |list| ==> list[i] == before[i]
          invariant session == old(session) && printed == old(printed)
        {
          list := list[at := list[at].(session := list[at].session - 1)];
          at := at + 1;
        }
      }
    }

    /** ReplayErrorRecursive: the tail of the list is printed before its head. */
    method PrintFrom(at: nat)
      requires at <= |list|
      modifies this`printed
      ensures printed == old(printed) + Reverse(Reports(OfSession(list[at..], 1)))
      decreases |list| - at
    {
      if at == |list| {
        return;
      }
      PrintFrom(at + 1);
      assert list[at..][1..] == list[at + 1..];
      ghost var rest := OfSession(list[at + 1..], 1);
      if list[at].session == 1 {
        assert Reports([list[at]] + rest)[1..] == Reports(rest);
        printed := printed + [list[at].report];
      } else {
        assert OfSession(list[at..], 1) == rest;
      }
    }

    /** AddSPASMErrorSessionAnnotation: every entry of this or a higher session is annotated. */
    method Annotate(n: int, text: string)
      modifies this
      ensures list == Annotated(old(list), n, text)
      ensures session == old(session) && printed == old(printed)
    {
      ghost var before := list;
      for at := 0 to |list|
        invariant |list| == |before| && session == old(session) && printed == old(printed)
        invariant forall i :: 0 <= i < at ==> list[i] == Annotated(before, n, text)[i]
        invariant forall i :: at <= i < |list| ==> list[i] == before[i]
      {
        if list[at].session >= n {
          list := list[at := list[at].(report := list[at].report.(annotation := text))];
        }
      }
    }

    /** EndSPASMErrorSession: the leading entries of the session are unlinked one by one. */
    method End(n: int)
      modifies this
      ensures list == old(list)[Leading(old(list), n)..]
      ensures session == old(session) - 1 && printed == old(printed)
      ensures n == old(session) ==> State() == OnList(old(State()), EndStep)
    {
      ghost var before := list;
      ghost var removed := 0;
      while |list| > 0 && list[0].session == n
        invariant removed <= Leading(before, n) && list == before[removed..]
        invariant session == old(session) && printed == old(printed)
        decreases |list|
      {
        list := list[1..];
        removed := removed + 1;
      }
      session := session - 1;
    }
  }

  function Reports(list: seq<Entry>): (r: seq<Report>)
    ensures |r| == |list|
  {
    seq(|list|, i requires 0 <= i < |list| => list[i].report)
  }

  function Problems(list: seq<Entry>): seq<Entry> {
    if list == [] then []
    else Problems(list[..|list| - 1]) + (if list[|list| - 1].report.code != 0 then [list[|list| - 1]] else [])
  }

  lemma ProblemsGrow(list: seq<Entry>, at: nat)
    requires at < |list|
    ensures Problems(list[..at + 1]) == Problems(list[..at]) + (if list[at].report.code != 0 then [list[at]] else [])
  {
    assert list[..at + 1][..at] == list[..at];
  }

  function Annotated(list: seq<Entry>, n: int, text: string): (r: seq<Entry>)
    ensures |r| == |list|
  {
    seq(|list|, i requires 0 <= i < |list| =>
      if list[i].session >= n then list[i].(report := list[i].report.(annotation := text)) else list[i])
  }

  // ---------- what ending and replaying do to an ordered list ----------

  /** In an ordered list the entries of the current session are exactly the leading ones. */
  lemma LeadingIsAll(list: seq<Entry>, n: int)
    requires Ordered(list, n)
    ensures forall i :: 0 <= i < |list| ==> (list[i].session == n <==> i < Leading(list, n))
  {
  }

  /** Ending the current session removes its entries and no others. */
  lemma EndRemovesExactly(list: seq<Entry>, n: int)
    requires Ordered(list, n)
    ensures var after := list[Leading(list, n)..];
      Ordered(after, n - 1) && forall e: Entry :: multiset(after)[e] == if e.session == n then 0 else multiset(list)[e]
  {
    LeadingIsAll(list, n);
    forall e: Entry ensures multiset(list[Leading(list, n)..])[e] == if e.session == n then 0 else multiset(list)[e] {
      CountSplit(list, Leading(list, n), n, e);
    }
  }

  lemma CountSplit(list: seq<Entry>, k: nat, n: int, e: Entry)
    requires k <= |list| && forall i :: 0 <= i < |list| ==> (list[i].session == n <==> i < k)
    ensures multiset(list[k..])[e] == if e.session == n then 0 else multiset(list)[e]
  {
    assert list == list[..k] + list[k..];
    if e.session == n {
      assert e !in list[k..];
    } else {
      assert e !in list[..k];
    }
  }

  /** Replaying and then ending a session above the first keeps every report: those of the
      session now belong to the one below, the others are untouched, and the order is kept. */
  lemma ReplayThenEnd(list: seq<Entry>, n: int)
    requires Ordered(list, n)
    ensures var moved := MovedDown(list, n);
      && Leading(moved, n) == 0 && moved[Leading(moved, n)..] == moved && Ordered(moved, n - 1)
      && Reports(moved) == Reports(list)
      && forall i :: 0 <= i < |list| ==> moved[i].session == if list[i].session == n then n - 1 else list[i].session
  {
    LeadingIsAll(list, n);
  }

  // ---------- the stack of frames ----------

  /** Frame k holds the reports of session k, newest first. */
  type Frames = seq<seq<Report>>

  function Tagged(frame: seq<Report>, n: int): (r: seq<Entry>)
    ensures |r| == |frame|
  {
    seq(|frame|, i requires 0 <= i < |frame| => Entry(frame[i], n))
  }

  /** The list that stands for a stack: top frame first. */
  function Flat(frames: Frames): seq<Entry> {
    if frames == [] then [] else Tagged(frames[|frames| - 1], |frames| - 1) + Flat(frames[..|frames| - 1])
  }

  datatype Step = StartStep | ReportStep(report: Report) | ReplayStep | EndStep

  /** Calls nest properly: replay and end name the current session, which is not the outermost. */
  predicate Allowed(frames: Frames, s: Step) {
    (s.ReplayStep? || s.EndStep?) ==> |frames| >= 2
  }

  function OnFrames(frames: Frames, s: Step): (r: Frames)
    requires |frames| >= 1 && Allowed(frames, s)
    ensures |r| >= 1
  {
    var top := |frames| - 1;
    match s
    case StartStep => frames + [[]]
    case ReportStep(report) => if report.code == 0 then frames else frames[top := [report] + frames[top]]
    case ReplayStep => if top == 1 then frames else frames[..top - 1] + [frames[top] + frames[top - 1], []]
    case EndStep => frames[..top]
  }

  datatype FlatState = FlatState(list: seq<Entry>, session: int)

  function OnList(st: FlatState, s: Step): FlatState {
    match s
    case StartStep => st.(session := st.session + 1)
    case ReportStep(report) =>
      if report.code == 0 then st else st.(list := [Entry(report, st.session)] + st.list)
    case ReplayStep => if st.session == 1 then st else st.(list := MovedDown(st.list, st.session))
    case EndStep => FlatState(st.list[Leading(st.list, st.session)..], st.session - 1)
  }

  ghost predicate Nested(frames: Frames, run: seq<Step>)
    requires |frames| >= 1
    decreases |run|
  {
    run == [] || (Allowed(frames, run[0]) && Nested(OnFrames(frames, run[0]), run[1..]))
  }

  function RunFrames(frames: Frames, run: seq<Step>): (r: Frames)
    requires |frames| >= 1 && Nested(frames, run)
    ensures |r| >= 1
    decreases |run|
  {
    if run == [] then frames else RunFrames(OnFrames(frames, run[0]), run[1..])
  }

  function RunList(st: FlatState, run: seq<Step>): FlatState
    decreases |run|
  {
    if run == [] then st else RunList(OnList(st, run[0]), run[1..])
  }

  lemma {:induction false} FlatOrdered(frames: Frames)
    ensures Ordered(Flat(frames), |frames| - 1)
  {
    if frames != [] {
      FlatOrdered(frames[..|frames| - 1]);
    }
  }

  lemma {:induction false} LeadingPrefix(head: seq<Entry>, rest: seq<Entry>, n: int)
    requires forall e :: e in head ==> e.session == n
    requires rest != [] ==> rest[0].session != n
    ensures Leading(head + rest, n) == |head|
  {
    if head == [] {
      assert head + rest == rest;
    } else {
      LeadingPrefix(head[1..], rest, n);
      assert (head + rest)[1..] == head[1..] + rest;
    }
  }

  lemma TaggedAppend(a: seq<Report>, b: seq<Report>, n: int)
    ensures Tagged(a + b, n) == Tagged(a, n) + Tagged(b, n)
  {
  }

  lemma FlatTop(frames: Frames, frame: seq<Report>)
    ensures Flat(frames + [frame]) == Tagged(frame, |frames|) + Flat(frames)
  {
    assert (frames + [frame])[..|frames|] == frames;
  }

  lemma StepStart(frames: Frames)
    ensures Flat(frames + [[]]) == Flat(frames)
  {
    FlatTop(frames, []);
    assert Tagged([], |frames|) + Flat(frames) == Flat(frames);
  }

  lemma StepReport(frames: Frames, report: Report)
    requires |frames| >= 1
    ensures var top := |frames| - 1;
      Flat(frames[top := [report] + frames[top]]) == [Entry(report, top)] + Flat(frames)
  {
    var top := |frames| - 1;
    var low, frame := frames[..top], frames[top];
    assert frames[top := [report] + frame] == low + [[report] + frame];
    FlatTop(low, [report] + frame);
    TaggedAppend([report], frame, top);
    assert Tagged([report], top) == [Entry(report, top)];
    Reassociate([Entry(report, top)], Tagged(frame, top), Flat(low));
  }

  lemma StepEnd(frames: Frames)
    requires |frames| >= 1
    ensures var top := |frames| - 1;
      Leading(Flat(frames), top) <= |Flat(frames)| && Flat(frames)[Leading(Flat(frames), top)..] == Flat(frames[..top])
  {
    var top := |frames| - 1;
    FlatOrdered(frames[..top]);
    LeadingPrefix(Tagged(frames[top], top), Flat(frames[..top]), top);
    assert Flat(frames) == Tagged(frames[top], top) + Flat(frames[..top]);
  }

  lemma TopTwo(frames: Frames) returns (low: Frames, b: seq<Report>, a: seq<Report>)
    requires |frames| >= 3
    ensures frames == low + [b] + [a] && OnFrames(frames, ReplayStep) == low + [a + b, []] && |low| == |frames| - 2
  {
    var n := |frames|;
    low, b, a := frames[..n - 2], frames[n - 2], frames[n - 1];
  }

  lemma FlatReplay(low: Frames, b: seq<Report>, a: seq<Report>)
    ensures MovedDown(Flat(low + [b] + [a]), |low| + 1) == Flat(low + [a + b, []])
  {
    FlatTop(low + [b], a);
    FlatTop(low, b);
    FlatOrdered(low + [b]);
    LeadingPrefix(Tagged(a, |low| + 1), Flat(low + [b]), |low| + 1);
    MoveTagged(a, Flat(low + [b]), |low| + 1);
    assert low + [a + b, []] == low + [a + b] + [[]];
    FlatTop(low + [a + b], []);
    FlatTop(low, a + b);
    TaggedAppend(a, b, |low|);
    Reassociate(Tagged(a, |low|), Tagged(b, |low|), Flat(low));
  }

  lemma StepReplay(frames: Frames)
    requires |frames| >= 3
    ensures MovedDown(Flat(frames), |frames| - 1) == Flat(OnFrames(frames, ReplayStep))
  {
    var low, b, a := TopTwo(frames);
    FlatReplay(low, b, a);
  }

  /** One call on the flat list does what it does on the stack of frames. */
  lemma StepRefines(frames: Frames, s: Step)
    requires |frames| >= 1 && Allowed(frames, s)
    ensures var after := OnFrames(frames, s);
      OnList(FlatState(Flat(frames), |frames| - 1), s) == FlatState(Flat(after), |after| - 1)
  {
    match s {
      case StartStep => StepStart(frames);
      case ReportStep(report) => StepReport(frames, report);
      case ReplayStep => if |frames| >= 3 { StepReplay(frames); }
      case EndStep => StepEnd(frames);
    }
  }

  lemma MoveTagged(a: seq<Report>, rest: seq<Entry>, n: int)
    requires Leading(Tagged(a, n) + rest, n) == |a|
    ensures MovedDown(Tagged(a, n) + rest, n) == Tagged(a, n - 1) + rest
  {
  }

  /** Every properly nested run: the flat list is the flattened stack, in session order, with
      nothing above the current session. */
  lemma {:induction false} RunRefines(frames: Frames, run: seq<Step>)
    requires |frames| >= 1 && Nested(frames, run)
    ensures var after := RunFrames(frames, run);
      && RunList(FlatState(Flat(frames), |frames| - 1), run) == FlatState(Flat(after), |after| - 1)
      && Ordered(Flat(after), |after| - 1)
    decreases |run|
  {
    if run != [] {
      StepRefines(frames, run[0]);
      RunRefines(OnFrames(frames, run[0]), run[1..]);
    }
    FlatOrdered(RunFrames(frames, run));
  }
}
