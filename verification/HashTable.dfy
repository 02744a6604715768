/** The open-addressing symbol table: linear probing with wraparound, and removal by pulling
    out a clump and inserting the rest of it again. The hash function is a parameter. */
module HashTable {
  import opened Bytes
  import NumberTheory

  datatype Entry<V> = Entry(name: string, value: V)
  type Slots<V> = seq<Option<Entry<V>>>

  const HASH_RANGE := 0x1_0000_0000

  // ---------- probing order ----------

  /** How many steps a probe that starts at home takes to reach slot i. */
  function Steps(home: nat, i: nat, size: nat): nat
    requires home < size && i < size
  {
    if home <= i then i - home else i + size - home
  }

  function Next(i: nat, size: nat): (j: nat)
    requires i < size
    ensures j == if i + 1 == size then 0 else i + 1
  {
    (i + 1) % size
  }

  function Home(hash: string -> nat, name: string, size: nat): (h: nat)
    requires 0 < size
    ensures h < size
  {
    hash(name) % size
  }

  /** Every slot from an entry's home up to the entry is occupied. */
  ghost predicate Probing<V(!new)>(slots: Slots<V>, hash: string -> nat) {
    forall i, j :: 0 <= i < |slots| && 0 <= j < |slots| && slots[i].Some? && Before(slots, hash, i, j)
      ==> slots[j].Some?
  }

  /** Slot j comes before slot i when probing for the entry in slot i. */
  ghost predicate Before<V(!new)>(slots: Slots<V>, hash: string -> nat, i: nat, j: nat)
    requires i < |slots| && j < |slots| && slots[i].Some?
  {
    var home := Home(hash, slots[i].value.name, |slots|);
    Steps(home, j, |slots|) < Steps(home, i, |slots|)
  }

  lemma ProbingAt<V(!new)>(slots: Slots<V>, hash: string -> nat, i: nat, j: nat)
    ensures Probing(slots, hash) && i < |slots| && j < |slots| && slots[i].Some? && Before(slots, hash, i, j)
      ==> slots[j].Some?
  {
  }

  ghost predicate HasRoom<V(!new)>(slots: Slots<V>) {
    multiset(slots)[None] > 0
  }

  /** The slots hold exactly the bindings of a finite map, each of them once. */
  ghost predicate Represents<V(!new)>(slots: Slots<V>, m: map<string, V>) {
    forall e: Entry<V> :: multiset(slots)[Some(e)] == if e.name in m && m[e.name] == e.value then 1 else 0
  }

  /** The first free slot at or after home. */
  ghost predicate FirstFree<V(!new)>(slots: Slots<V>, home: nat, i: nat)
    requires home < |slots|
  {
    i < |slots| && slots[i].None? && FullBefore(slots, home, i)
  }

  ghost predicate FullBefore<V(!new)>(slots: Slots<V>, home: nat, i: nat)
    requires home < |slots| && i < |slots|
  {
    forall j :: 0 <= j < |slots| && Steps(home, j, |slots|) < Steps(home, i, |slots|) ==> slots[j].Some?
  }

  /** A probe from home to slot i has seen other names only. */
  ghost predicate OthersBefore<V(!new)>(slots: Slots<V>, home: nat, i: nat, name: string)
    requires home < |slots| && i < |slots|
  {
    forall j :: 0 <= j < |slots| && Steps(home, j, |slots|) < Steps(home, i, |slots|) && slots[j].Some?
      ==> slots[j].value.name != name
  }

  lemma FreeSlot<V(!new)>(slots: Slots<V>) returns (i: nat)
    requires HasRoom(slots)
    ensures i < |slots| && slots[i].None?
  {
    assert None in slots;
    i :| 0 <= i < |slots| && slots[i] == None;
  }

  /** The next slot of a probe that has not come to a free slot yet. */
  lemma FullStep<V(!new)>(slots: Slots<V>, home: nat, at: nat, free: nat)
    requires home < |slots| && at < |slots| && FullBefore(slots, home, at) && slots[at].Some?
    requires free < |slots| && slots[free].None? && Steps(home, at, |slots|) <= Steps(home, free, |slots|)
    ensures var next := Next(at, |slots|);
      && Steps(home, next, |slots|) == Steps(home, at, |slots|) + 1 <= Steps(home, free, |slots|)
      && FullBefore(slots, home, next)
  {
  }

  lemma OthersStep<V(!new)>(slots: Slots<V>, home: nat, at: nat, free: nat, name: string)
    requires home < |slots| && at < |slots| && OthersBefore(slots, home, at, name)
    requires slots[at].Some? && slots[at].value.name != name
    requires free < |slots| && slots[free].None? && Steps(home, at, |slots|) <= Steps(home, free, |slots|)
    ensures OthersBefore(slots, home, Next(at, |slots|), name)
  {
  }

  /** A name's entries lie between its home and the first free slot after it. */
  lemma EntryBeforeFree<V(!new)>(slots: Slots<V>, hash: string -> nat, i: nat, free: nat)
    requires Probing(slots, hash) && i < |slots| && slots[i].Some?
    requires FirstFree(slots, Home(hash, slots[i].value.name, |slots|), free)
    ensures var home := Home(hash, slots[i].value.name, |slots|);
      Steps(home, i, |slots|) < Steps(home, free, |slots|)
  {
    ProbingAt(slots, hash, i, free);
  }

  /** Where a probe for a name ends is where the map says. */
  lemma ProbeEnd<V(!new)>(slots: Slots<V>, hash: string -> nat, m: map<string, V>, name: string, at: nat)
    requires at < |slots| && Probing(slots, hash) && Represents(slots, m)
    requires FullBefore(slots, Home(hash, name, |slots|), at)
    requires OthersBefore(slots, Home(hash, name, |slots|), at, name)
    requires slots[at].Some? ==> slots[at].value.name == name
    ensures slots[at] == if name in m then Some(Entry(name, m[name])) else None
  {
    if slots[at].Some? {
      assert slots[at] in multiset(slots);
    } else if name in m {
      assert Some(Entry(name, m[name])) in multiset(slots);
      var i :| 0 <= i < |slots| && slots[i] == Some(Entry(name, m[name]));
      EntryBeforeFree(slots, hash, i, at);
    }
  }

  // ---------- effect of one insertion on the invariant and the contents ----------

  lemma UpdateBag<T>(s: seq<T>, i: nat, x: T)
    requires i < |s|
    ensures multiset(s[i := x]) == multiset(s) - multiset{s[i]} + multiset{x}
  {
    assert s == s[..i] + [s[i]] + s[i + 1..];
    assert s[i := x] == s[..i] + [x] + s[i + 1..];
  }

  lemma InsertKeepsProbing<V(!new)>(slots: Slots<V>, hash: string -> nat, e: Entry<V>, at: nat)
    requires |slots| > 0 && Probing(slots, hash) && FirstFree(slots, Home(hash, e.name, |slots|), at)
    ensures Probing(slots[at := Some(e)], hash)
  {
    var after := slots[at := Some(e)];
    forall i, j | 0 <= i < |after| && 0 <= j < |after| && after[i].Some? && Before(after, hash, i, j)
      ensures after[j].Some?
    {
      if i != at {
        assert Before(slots, hash, i, j);
      }
    }
  }

  /** The entry has been put in the first free slot from its home. */
  ghost predicate FilledFirst<V(!new)>(before: Slots<V>, now: Slots<V>, hash: string -> nat, e: Entry<V>)
    requires 0 < |before|
  {
    exists at :: 0 <= at < |before|
      && FirstFree(before, Home(hash, e.name, |before|), at) && now == before[at := Some(e)]
  }

  lemma FillFirst<V(!new)>(before: Slots<V>, hash: string -> nat, e: Entry<V>, at: nat)
    requires 0 < |before| && Probing(before, hash) && FirstFree(before, Home(hash, e.name, |before|), at)
    ensures var now := before[at := Some(e)];
      && FilledFirst(before, now, hash, e) && Probing(now, hash)
      && multiset(now) == multiset(before) - multiset{None} + multiset{Some(e)}
  {
    InsertKeepsProbing(before, hash, e, at);
    UpdateBag(before, at, Some(e));
  }

  // ---------- pulling out a run ----------

  /** The slots with the c slots from start on emptied. */
  ghost function Emptied<V>(slots: Slots<V>, start: nat, c: nat): (r: Slots<V>)
    requires start < |slots|
    ensures |r| == |slots|
  {
    seq(|slots|, i requires 0 <= i < |slots| => if Steps(start, i, |slots|) < c then None else slots[i])
  }

  /** Emptying a run up to a free slot breaks no probe path: a path that entered the run
      would have to leave it through that slot. */
  lemma EmptyingKeepsProbing<V(!new)>(slots: Slots<V>, hash: string -> nat, start: nat, free: nat)
    requires start < |slots| && Probing(slots, hash) && FirstFree(slots, start, free)
    ensures Probing(Emptied(slots, start, Steps(start, free, |slots|)), hash)
  {
    var n := |slots|;
    var after := Emptied(slots, start, Steps(start, free, n));
    forall i, j | 0 <= i < n && 0 <= j < n && after[i].Some? && Before(after, hash, i, j)
      ensures after[j].Some?
    {
      assert slots[i] == after[i];
      ProbingAt(slots, hash, i, j);
      ProbingAt(slots, hash, i, free);
    }
  }

  /** The entries of a run with or without a given name. */
  ghost function Named<V>(run: seq<Entry<V>>, name: string, same: bool): seq<Entry<V>> {
    if run == [] then []
    else
      var last := run[|run| - 1];
      Named(run[..|run| - 1], name, same) + (if (last.name == name) == same then [last] else [])
  }

  lemma CountAppend<T>(s: seq<T>, x: T, e: T)
    ensures multiset(s + [x])[e] == multiset(s)[e] + (if e == x then 1 else 0)
  {
  }

  lemma {:induction false} NamedBag<V>(run: seq<Entry<V>>, name: string, same: bool, e: Entry<V>)
    ensures multiset(Named(run, name, same))[e] == if (e.name == name) == same then multiset(run)[e] else 0
  {
    if run != [] {
      var last, rest := run[|run| - 1], run[..|run| - 1];
      NamedBag(rest, name, same, e);
      assert run == rest + [last];
      CountAppend(rest, last, e);
      KeptCount(Named(rest, name, same), last, (last.name == name) == same, e);
    }
  }

  lemma KeptCount<T>(kept: seq<T>, last: T, keep: bool, e: T)
    ensures multiset(kept + if keep then [last] else [])[e] == multiset(kept)[e] + (if keep && e == last then 1 else 0)
  {
    if keep {
      CountAppend(kept, last, e);
    } else {
      assert kept + [] == kept;
    }
  }

  lemma NamedGrows<V>(run: seq<Entry<V>>, i: nat, name: string, same: bool)
    requires i < |run|
    ensures Named(run[..i + 1], name, same)
      == Named(run[..i], name, same) + (if (run[i].name == name) == same then [run[i]] else [])
  {
    assert run[..i + 1][..i] == run[..i];
  }

  /** The run is what the slots from start on held, in probing order. */
  ghost predicate RunAt<V(!new)>(slots: Slots<V>, start: nat, run: seq<Entry<V>>)
    requires start < |slots|
  {
    forall i :: 0 <= i < |slots| && Steps(start, i, |slots|) < |run| ==> slots[i] == Some(run[Steps(start, i, |slots|)])
  }

  /** Moving a run out of the slots loses and duplicates nothing. */
  ghost predicate Moved<V(!new)>(before: Slots<V>, now: Slots<V>, run: seq<Entry<V>>) {
    && multiset(now)[None] == multiset(before)[None] + |run|
    && forall e :: multiset(now)[Some(e)] + multiset(run)[e] == multiset(before)[Some(e)]
  }

  lemma MoveOne<V(!new)>(before: Slots<V>, now: Slots<V>, run: seq<Entry<V>>, i: nat)
    requires Moved(before, now, run) && i < |now| && now[i].Some?
    ensures Moved(before, now[i := None], run + [now[i].value])
  {
    UpdateBag(now, i, None);
    var x := now[i].value;
    forall e ensures multiset(now[i := None])[Some(e)] + multiset(run + [x])[e] == multiset(before)[Some(e)] {
      CountAppend(run, x, e);
      assert now[i] in now;
    }
  }

  lemma EmptyOne<V(!new)>(before: Slots<V>, start: nat, run: seq<Entry<V>>, i: nat)
    requires start < |before| && i < |before| && Steps(start, i, |before|) == |run| && before[i].Some?
    requires RunAt(before, start, run)
    ensures RunAt(before, start, run + [before[i].value])
    ensures Emptied(before, start, |run|)[i := None] == Emptied(before, start, |run| + 1)
    ensures Emptied(before, start, |run|)[i] == before[i]
  {
  }

  lemma PullStep<V(!new)>(before: Slots<V>, now: Slots<V>, start: nat, run: seq<Entry<V>>, i: nat)
    requires start < |before| && i < |before| && Steps(start, i, |before|) == |run|
    requires now == Emptied(before, start, |run|) && now[i].Some?
    requires RunAt(before, start, run) && Moved(before, now, run)
    ensures var x := now[i].value; RunAt(before, start, run + [x]) && Moved(before, now[i := None], run + [x])
    ensures now[i := None] == Emptied(before, start, |run| + 1)
  {
    EmptyOne(before, start, run, i);
    MoveOne(before, now, run, i);
  }

  lemma PullNext<V(!new)>(before: Slots<V>, start: nat, c: nat, i: nat, free: nat)
    requires start < |before| && i < |before| && free < |before| && before[free].None?
    requires Steps(start, i, |before|) == c <= Steps(start, free, |before|) && Emptied(before, start, c)[i].Some?
    ensures Steps(start, Next(i, |before|), |before|) == c + 1 <= Steps(start, free, |before|)
  {
  }

  /** A run pulled out of the slots up to the first free slot. */
  ghost predicate PulledOut<V(!new)>(slots: Slots<V>, start: nat, run: seq<Entry<V>>) {
    && start < |slots| && RunAt(slots, start, run)
    && exists free :: FirstFree(slots, start, free) && Steps(start, free, |slots|) == |run|
  }

  lemma RunEnds<V(!new)>(slots: Slots<V>, start: nat, run: seq<Entry<V>>, free: nat)
    requires start < |slots| && free < |slots| && RunAt(slots, start, run) && slots[free].None?
    requires Steps(start, free, |slots|) == |run|
    ensures PulledOut(slots, start, run) && FirstFree(slots, start, free)
  {
  }

  lemma PullDone<V(!new)>(before: Slots<V>, now: Slots<V>, hash: string -> nat, start: nat, run: seq<Entry<V>>, at: nat)
    requires start < |before| && at < |before| && Steps(start, at, |before|) == |run| && RunAt(before, start, run)
    requires now == Emptied(before, start, |run|) && now[at].None? && Probing(before, hash)
    ensures PulledOut(before, start, run) && Probing(now, hash)
  {
    RunEnds(before, start, run, at);
    EmptyingKeepsProbing(before, hash, start, at);
  }

  /** Every slot from start up to i is occupied. */
  ghost predicate FullThrough<V(!new)>(slots: Slots<V>, start: nat, i: nat)
    requires start < |slots| && i < |slots|
  {
    forall j :: 0 <= j < |slots| && Steps(start, j, |slots|) <= Steps(start, i, |slots|) ==> slots[j].Some?
  }

  /** An entry with the name stands in the run of occupied slots that begins at start. */
  ghost predicate Reaches<V(!new)>(slots: Slots<V>, start: nat, name: string)
    requires start < |slots|
  {
    exists i :: 0 <= i < |slots| && IsNamed(slots, i, name) && FullThrough(slots, start, i)
  }

  ghost predicate IsNamed<V(!new)>(slots: Slots<V>, i: nat, name: string)
    requires i < |slots|
  {
    slots[i].Some? && slots[i].value.name == name
  }

  function SlotAt(start: nat, k: nat, size: nat): (i: nat)
    requires start < size && k < size
    ensures i < size && Steps(start, i, size) == k
  {
    if start + k < size then start + k else start + k - size
  }

  /** The entries with a name in a run pulled out are those it reaches. */
  lemma RunHoldsReached<V(!new)>(slots: Slots<V>, start: nat, run: seq<Entry<V>>, name: string)
    requires PulledOut(slots, start, run)
    ensures (exists k :: 0 <= k < |run| && run[k].name == name) <==> Reaches(slots, start, name)
  {
    var free :| FirstFree(slots, start, free) && Steps(start, free, |slots|) == |run|;
    if k :| 0 <= k < |run| && run[k].name == name {
      var i := SlotAt(start, k, |slots|);
      assert IsNamed(slots, i, name) && FullThrough(slots, start, i);
    }
    if Reaches(slots, start, name) {
      var i :| 0 <= i < |slots| && IsNamed(slots, i, name) && FullThrough(slots, start, i);
      assert Steps(start, i, |slots|) < |run|;
      assert run[Steps(start, i, |slots|)].name == name;
    }
  }

  /** From a name's home every entry with the name is reached. */
  lemma HomeReaches<V(!new)>(slots: Slots<V>, hash: string -> nat, m: map<string, V>, name: string)
    requires 0 < |slots| && Probing(slots, hash) && Represents(slots, m)
    ensures Reaches(slots, Home(hash, name, |slots|), name) <==> name in m
  {
    var home := Home(hash, name, |slots|);
    if name in m {
      assert Some(Entry(name, m[name])) in multiset(slots);
      var i :| 0 <= i < |slots| && slots[i] == Some(Entry(name, m[name]));
      forall j | 0 <= j < |slots| && Steps(home, j, |slots|) <= Steps(home, i, |slots|) ensures slots[j].Some? {
        ProbingAt(slots, hash, i, j);
      }
      assert IsNamed(slots, i, name) && FullThrough(slots, home, i);
    }
    if Reaches(slots, home, name) {
      var i :| 0 <= i < |slots| && IsNamed(slots, i, name) && FullThrough(slots, home, i);
      assert slots[i] in multiset(slots);
    }
  }

  /** The contents while the run is put back: what was left plus the run's entries under other names. */
  ghost predicate PutBack<V(!new)>(before: Slots<V>, now: Slots<V>, run: seq<Entry<V>>, name: string) {
    forall e :: multiset(now)[Some(e)] == multiset(before)[Some(e)] + multiset(Named(run, name, false))[e]
  }

  lemma PutBackOne<V(!new)>(before: Slots<V>, now: Slots<V>, after: Slots<V>, run: seq<Entry<V>>, i: nat, name: string)
    requires i < |run| && PutBack(before, now, run[..i], name) && run[i].name != name && multiset(now)[None] > 0
    requires multiset(after) == multiset(now) - multiset{None} + multiset{Some(run[i])}
    ensures PutBack(before, after, run[..i + 1], name)
  {
    NamedGrows(run, i, name, false);
    var kept := Named(run[..i], name, false);
    forall e ensures multiset(after)[Some(e)] == multiset(before)[Some(e)] + multiset(kept + [run[i]])[e] {
      CountAppend(kept, run[i], e);
    }
  }

  lemma RoomLeft<V(!new)>(now: Slots<V>, after: Slots<V>, e: Entry<V>)
    requires multiset(now)[None] > 0 && multiset(after) == multiset(now) - multiset{None} + multiset{Some(e)}
    ensures multiset(after)[None] == multiset(now)[None] - 1
  {
  }

  lemma DropOne<V(!new)>(before: Slots<V>, now: Slots<V>, run: seq<Entry<V>>, i: nat, name: string)
    requires i < |run| && PutBack(before, now, run[..i], name) && run[i].name == name
    ensures PutBack(before, now, run[..i + 1], name)
  {
    NamedGrows(run, i, name, false);
    assert Named(run[..i], name, false) + [] == Named(run[..i], name, false);
  }

  /** What is handed to the callback. */
  ghost function Removed<V>(m: map<string, V>, name: string, reached: bool): multiset<Entry<V>> {
    if reached && name in m then multiset{Entry(name, m[name])} else multiset{}
  }

  lemma Without<V>(m: map<string, V>, name: string)
    ensures m == m - {name} <==> name !in m
  {
    assert name !in m - {name};
    if name !in m { assert m - {name} == m; }
  }

  lemma PulledSome<V(!new)>(slots: Slots<V>, start: nat, run: seq<Entry<V>>)
    requires PulledOut(slots, start, run)
    ensures |run| > 0 <==> slots[start].Some?
  {
    var free :| FirstFree(slots, start, free) && Steps(start, free, |slots|) == |run|;
    assert Steps(start, start, |slots|) == 0;
  }

  /** Taking a run out and putting back all but one name removes that name if the run reached it, and
      nothing otherwise. */
  lemma RemovalRepresents<V(!new)>(before: Slots<V>, emptied: Slots<V>, after: Slots<V>, start: nat,
                            run: seq<Entry<V>>, name: string, m: map<string, V>)
    requires Represents(before, m) && PulledOut(before, start, run)
    requires Moved(before, emptied, run) && PutBack(emptied, after, run, name)
    ensures Represents(after, if Reaches(before, start, name) then m - {name} else m)
    ensures multiset(Named(run, name, true)) == Removed(m, name, Reaches(before, start, name))
  {
    var reached := Reaches(before, start, name);
    forall e: Entry<V> ensures multiset(Named(run, name, true))[e] == Removed(m, name, reached)[e] {
      RemovalOf(before, emptied, after, start, run, name, m, e);
    }
    RestRepresents(before, emptied, after, start, run, name, m, if reached then m - {name} else m);
  }

  lemma RestRepresents<V(!new)>(before: Slots<V>, emptied: Slots<V>, after: Slots<V>, start: nat, run: seq<Entry<V>>,
                                name: string, m: map<string, V>, rest: map<string, V>)
    requires Represents(before, m) && PulledOut(before, start, run)
    requires Moved(before, emptied, run) && PutBack(emptied, after, run, name)
    requires rest == if Reaches(before, start, name) then m - {name} else m
    ensures Represents(after, rest)
  {
    forall e: Entry<V>
      ensures multiset(after)[Some(e)] == if e.name in rest && rest[e.name] == e.value then 1 else 0
    {
      RemovalOf(before, emptied, after, start, run, name, m, e);
    }
  }

  lemma RemovalOf<V(!new)>(before: Slots<V>, emptied: Slots<V>, after: Slots<V>, start: nat, run: seq<Entry<V>>,
                    name: string, m: map<string, V>, e: Entry<V>)
    requires Represents(before, m) && PulledOut(before, start, run)
    requires Moved(before, emptied, run) && PutBack(emptied, after, run, name)
    ensures var reached := Reaches(before, start, name);
      var gone := reached && e.name == name;
      && multiset(after)[Some(e)] == (if !gone && e.name in m && m[e.name] == e.value then 1 else 0)
      && multiset(Named(run, name, true))[e] == (if gone && name in m && m[name] == e.value then 1 else 0)
  {
    RemovalCount(before, emptied, after, run, name, e);
    NamedBag(run, name, true, e);
    if e.name == name { ReachedCount(before, start, run, name, m, e); }
  }

  lemma RemovalCount<V(!new)>(before: Slots<V>, emptied: Slots<V>, after: Slots<V>, run: seq<Entry<V>>, name: string,
                       e: Entry<V>)
    requires Moved(before, emptied, run) && PutBack(emptied, after, run, name)
    ensures multiset(after)[Some(e)] == multiset(before)[Some(e)] - (if e.name == name then multiset(run)[e] else 0)
  {
    NamedBag(run, name, false, e);
    assert multiset(emptied)[Some(e)] + multiset(run)[e] == multiset(before)[Some(e)];
  }

  /** Of the entries with the name the run holds the one that is bound, if it is reached, and no other. */
  lemma ReachedCount<V(!new)>(before: Slots<V>, start: nat, run: seq<Entry<V>>, name: string, m: map<string, V>,
                       e: Entry<V>)
    requires Represents(before, m) && PulledOut(before, start, run)
    requires multiset(run)[e] <= multiset(before)[Some(e)] && e.name == name
    ensures multiset(run)[e]
      == if Reaches(before, start, name) && name in m && m[name] == e.value then 1 else 0
  {
    RunHoldsReached(before, start, run, name);
    if k :| 0 <= k < |run| && run[k].name == name {
      var i := SlotAt(start, k, |before|);
      assert before[i] == Some(run[k]) && before[i] in multiset(before);
      assert m[name] == run[k].value;
      if m[name] == e.value {
        assert run[k] == e && e in multiset(run);
      }
    } else {
      assert e !in run;
    }
  }

  // ---------- where removal starts ----------

  /** clump before the backward scan: (hash - 1) % size on 32-bit unsigned numbers. */
  function ScanStart(h: nat, size: nat): nat
    requires 0 < size
  {
    ((h - 1) % HASH_RANGE) % size
  }

  /** One step of the backward scan: (clump - 1) % size on 32-bit unsigned numbers. */
  function Previous(clump: nat, size: nat): nat
    requires 0 < size
  {
    ((clump - 1) % HASH_RANGE) % size
  }

  /** The slot after the start of the scan is the home slot exactly when the hash is not zero,
      or the table size divides 2^32. */
  lemma ScanStartsBelowHome(h: nat, size: nat)
    requires 0 < size < HASH_RANGE && h < HASH_RANGE
    ensures Next(ScanStart(h, size), size) == h % size <==> h != 0 || HASH_RANGE % size == 0
  {
    if h != 0 {
      SuccessorMod(h - 1, size);
    } else {
      assert (-1) % HASH_RANGE == HASH_RANGE - 1;
      SuccessorMod(HASH_RANGE - 1, size);
    }
  }

  lemma SuccessorMod(x: nat, size: nat)
    requires 0 < size
    ensures (x + 1) % size == if x % size + 1 == size then 0 else x % size + 1
  {
    var q, r := x / size, x % size;
    assert x + 1 == q * size + (r + 1);
    if r + 1 == size {
      assert x + 1 == (q + 1) * size;
      ModUnique(x + 1, q + 1, 0, size);
    } else {
      ModUnique(x + 1, q, r + 1, size);
    }
  }

  lemma ModUnique(x: nat, q: nat, r: nat, size: nat)
    requires r < size && x == q * size + r
    ensures x % size == r
  {
    var q', r' := x / size, x % size;
    assert (q - q') * size == r' - r;
    NumberTheory.MultipleGap(q - q', size);
  }

  /** The backward scan: where it stops, or None if it is still moving after so many turns. */
  function ScanBack<V>(slots: Slots<V>, hash: string -> nat, h: nat, clump: nat, turns: nat): (r: Option<nat>)
    requires clump < |slots|
    ensures r.Some? ==> r.value < |slots|
    decreases turns
  {
    if !(slots[clump].Some? && hash(slots[clump].value.name) == h) then Some(clump)
    else if turns == 0 then None
    else ScanBack(slots, hash, h, Previous(clump, |slots|), turns - 1)
  }

  /** Where the backward scan for a name stops, if it stops at all. */
  function ScanStop<V>(slots: Slots<V>, hash: string -> nat, name: string): (r: Option<nat>)
    requires 0 < |slots|
    ensures r.Some? ==> r.value < |slots|
  {
    ScanBack(slots, hash, hash(name), ScanStart(hash(name), |slots|), |slots|)
  }

  /** The slot at which removal starts: the one behind it. */
  function RemovalStart<V>(slots: Slots<V>, hash: string -> nat, name: string): (start: nat)
    requires 0 < |slots| && ScanStop(slots, hash, name).Some?
    ensures start < |slots|
  {
    Next(ScanStop(slots, hash, name).value, |slots|)
  }

  lemma ScanStep<V>(slots: Slots<V>, hash: string -> nat, h: nat, clump: nat, turns: nat)
    requires clump < |slots| && slots[clump].Some? && hash(slots[clump].value.name) == h
    requires ScanBack(slots, hash, h, clump, turns).Some?
    ensures turns > 0 && Previous(clump, |slots|) < |slots|
    ensures ScanBack(slots, hash, h, clump, turns) == ScanBack(slots, hash, h, Previous(clump, |slots|), turns - 1)
  {
  }

  /** The backward scan cannot move: an entry with the same hash just below the home slot
      would have probed through every other slot, and one is free. */
  lemma ScanCannotMove<V(!new)>(slots: Slots<V>, hash: string -> nat, h: nat)
    requires 0 < |slots| < HASH_RANGE && h < HASH_RANGE && Probing(slots, hash) && HasRoom(slots)
    requires h != 0 || HASH_RANGE % |slots| == 0
    ensures ScanBack(slots, hash, h, ScanStart(h, |slots|), |slots|) == Some(ScanStart(h, |slots|))
  {
    var n := |slots|;
    var clump := ScanStart(h, n);
    ScanStartsBelowHome(h, n);
    var free := FreeSlot(slots);
    ProbingAt(slots, hash, clump, free);
  }

  // ---------- names that hash to zero ----------

  /** The slot at which their scan starts, and to which it comes back from slot 0. */
  function Top(size: nat): (i: nat)
    requires 0 < size
    ensures i < size
  {
    ScanStart(0, size)
  }

  lemma TopIs(size: nat)
    requires 0 < size < HASH_RANGE
    ensures Top(size) == if HASH_RANGE % size == 0 then size - 1 else HASH_RANGE % size - 1
  {
    assert (-1) % HASH_RANGE == HASH_RANGE - 1;
    SuccessorMod(HASH_RANGE - 1, size);
  }

  lemma PreviousIs(clump: nat, size: nat)
    requires clump < size < HASH_RANGE
    ensures Previous(clump, size) == if clump == 0 then Top(size) else clump - 1
  {
    if clump > 0 {
      ModUnique(clump - 1, 0, clump - 1, HASH_RANGE);
      ModUnique(clump - 1, 0, clump - 1, size);
    }
  }

  predicate HashesToZero<V>(slots: Slots<V>, hash: string -> nat, i: nat)
    requires i < |slots|
  {
    slots[i].Some? && hash(slots[i].value.name) == 0
  }

  /** Some slot that the scan for hash zero visits is free or holds another hash. */
  predicate ZeroScanEnds<V>(slots: Slots<V>, hash: string -> nat)
    requires 0 < |slots|
  {
    exists i :: 0 <= i <= Top(|slots|) && !HashesToZero(slots, hash, i)
  }

  lemma {:induction false} ZeroScanTurns<V>(slots: Slots<V>, hash: string -> nat, clump: nat, turns: nat)
    requires 0 < |slots| < HASH_RANGE && clump <= Top(|slots|) && !ZeroScanEnds(slots, hash)
    ensures ScanBack(slots, hash, 0, clump, turns) == None
    decreases turns
  {
    assert HashesToZero(slots, hash, clump);
    PreviousIs(clump, |slots|);
    if turns > 0 {
      ZeroScanTurns(slots, hash, Previous(clump, |slots|), turns - 1);
    }
  }

  /** It stops at the highest such slot. */
  lemma {:induction false} ZeroScanStops<V>(slots: Slots<V>, hash: string -> nat, clump: nat, turns: nat, i: nat)
    requires |slots| < HASH_RANGE && i <= clump < |slots| && clump - i <= turns
    requires !HashesToZero(slots, hash, i) && forall j :: i < j <= clump ==> HashesToZero(slots, hash, j)
    ensures ScanBack(slots, hash, 0, clump, turns) == Some(i)
    decreases clump
  {
    if i < clump {
      assert HashesToZero(slots, hash, clump);
      PreviousIs(clump, |slots|);
      ZeroScanStops(slots, hash, clump - 1, turns - 1, i);
    }
  }

  lemma {:induction false} HighestOther<V>(slots: Slots<V>, hash: string -> nat, clump: nat) returns (i: nat)
    requires clump < |slots| && exists k :: 0 <= k <= clump && !HashesToZero(slots, hash, k)
    ensures i <= clump && !HashesToZero(slots, hash, i) && forall j :: i < j <= clump ==> HashesToZero(slots, hash, j)
    decreases clump
  {
    i := clump;
    if HashesToZero(slots, hash, clump) {
      i := HighestOther(slots, hash, clump - 1);
    }
  }

  /** Whether the scan for a name ends. */
  predicate ScanEnds<V>(slots: Slots<V>, hash: string -> nat, name: string)
    requires 0 < |slots|
  {
    hash(name) != 0 || ZeroScanEnds(slots, hash)
  }

  /** The scan for a name ends exactly then, and no later than after a turn for every slot. */
  lemma ScanEndsIff<V(!new)>(slots: Slots<V>, hash: string -> nat, name: string)
    requires 0 < |slots| < HASH_RANGE && hash(name) < HASH_RANGE && Probing(slots, hash) && HasRoom(slots)
    ensures ScanEnds(slots, hash, name)
      <==> exists turns: nat :: ScanBack(slots, hash, hash(name), ScanStart(hash(name), |slots|), turns).Some?
    ensures ScanEnds(slots, hash, name) <==> ScanStop(slots, hash, name).Some?
  {
    var h, start := hash(name), ScanStart(hash(name), |slots|);
    if h != 0 {
      ScanCannotMove(slots, hash, h);
    } else if ZeroScanEnds(slots, hash) {
      var i := HighestOther(slots, hash, start);
      ZeroScanStops(slots, hash, start, |slots|, i);
    } else {
      forall turns: nat ensures ScanBack(slots, hash, h, start, turns) == None {
        ZeroScanTurns(slots, hash, start, turns);
      }
    }
    assert ScanStop(slots, hash, name) == ScanBack(slots, hash, h, start, |slots|);
  }

  /** A name that hashes to zero, alone in its home slot. */
  ghost predicate Alone<V(!new)>(slots: Slots<V>, hash: string -> nat, e: Entry<V>) {
    && 1 < |slots| < HASH_RANGE && hash(e.name) == 0
    && slots[0] == Some(e) && forall i :: 1 <= i < |slots| ==> slots[i].None?
  }

  /** If the size leaves 1, the scan for it never ends. */
  lemma AloneNeverEnds<V(!new)>(slots: Slots<V>, hash: string -> nat, e: Entry<V>)
    requires Alone(slots, hash, e) && HASH_RANGE % |slots| == 1
    ensures !ScanEnds(slots, hash, e.name)
  {
    TopIs(|slots|);
  }

  /** If it leaves more, the scan ends, and removal starts at a free slot: the name is not reached. */
  lemma AloneMissed<V(!new)>(slots: Slots<V>, hash: string -> nat, e: Entry<V>)
    requires Alone(slots, hash, e) && HASH_RANGE % |slots| > 1
    ensures ScanEnds(slots, hash, e.name) && ScanStop(slots, hash, e.name).Some?
    ensures !Reaches(slots, RemovalStart(slots, hash, e.name), e.name)
  {
    var top := Top(|slots|);
    TopIs(|slots|);
    assert !HashesToZero(slots, hash, top);
    ZeroScanStops(slots, hash, top, |slots|, top);
    assert Steps(top + 1, top + 1, |slots|) == 0;
  }

  /** With three slots a name that hashes to zero is never removed when it is in the first. */
  lemma ThreeSlotsHang<V>(slots: Slots<V>, hash: string -> nat, turns: nat)
    requires |slots| == 3 && HashesToZero(slots, hash, 0)
    ensures ScanBack(slots, hash, 0, ScanStart(0, 3), turns) == None
  {
    TopIs(3);
    ZeroScanTurns(slots, hash, 0, turns);
  }

  /** Other names can make up for it: here the scan stops at another entry, and removal starts at the
      name's own. */
  lemma ZeroHashReached<V(!new)>(hash: string -> nat, a: Entry<V>, e: Entry<V>)
    requires hash(a.name) == 3 && hash(e.name) == 0
    ensures var slots: Slots<V> := [Some(a), Some(e), None];
      && Probing(slots, hash) && ScanStop(slots, hash, e.name).Some?
      && Reaches(slots, RemovalStart(slots, hash, e.name), e.name)
  {
    var slots: Slots<V> := [Some(a), Some(e), None];
    assert ScanStart(0, 3) == 0 && ScanStop(slots, hash, e.name) == Some(0);
    assert Home(hash, a.name, 3) == 0 && Home(hash, e.name, 3) == 0;
    assert IsNamed(slots, 1, e.name) && FullThrough(slots, 1, 1);
  }

  /** The tables of defines and of labels: both sizes leave more than 1. */
  lemma TableSizes()
    ensures HASH_RANGE % 2089 == 8 && HASH_RANGE % 6637 == 5308
  {
  }

  class Table<V(!new)> {
    const hash: string -> nat
    const table: array<Option<Entry<V>>>
    ghost var bindings: map<string, V>

    ghost predicate WellProbed()
      reads table
    {
      && 0 < table.Length < HASH_RANGE
      && (forall name :: hash(name) < HASH_RANGE)
      && Probing(table[..], hash)
    }

    ghost predicate Valid()
      reads this, table
    {
      WellProbed() && Represents(table[..], bindings)
    }

    /** hash_init. */
    constructor (hash: string -> nat, size: nat)
      requires size < HASH_RANGE - 1 && forall name :: hash(name) < HASH_RANGE
      ensures Valid() && HasRoom(table[..]) && bindings == map[]
      ensures this.hash == hash && fresh(table) && table.Length == if size < 2 then size + 1 else size
    {
      this.hash := hash;
      var n := size + (if size < 2 then 1 else 0);
      this.table := new Option<Entry<V>>[n](_ => None);
      this.bindings := map[];
      new;
      assert table[0] in table[..];
      forall e: Entry<V> ensures multiset(table[..])[Some(e)] == 0 {
        assert Some(e) !in table[..];
      }
    }

    /** hash_insert, on the slots alone. */
    method HashInsert(e: Entry<V>)
      requires WellProbed() && HasRoom(table[..])
      modifies table
      ensures WellProbed()
      ensures FilledFirst(old(table[..]), table[..], hash, e)
      ensures multiset(table[..]) == old(multiset(table[..])) - multiset{None} + multiset{Some(e)}
    {
      ghost var before := table[..];
      var at := FindFree(hash(e.name) % table.Length);
      FillFirst(before, hash, e, at);
      table[at] := Some(e);
      assert table[..] == before[at := Some(e)];
    }

    /** The probing loop of hash_insert. */
    method FindFree(home: nat) returns (at: nat)
      requires HasRoom(table[..]) && home < table.Length
      ensures at < table.Length && FirstFree(table[..], home, at)
    {
      at := home;
      ghost var free := FreeSlot(table[..]);
      while table[at].Some?
        invariant at < table.Length && Steps(home, at, table.Length) <= Steps(home, free, table.Length)
        invariant FullBefore(table[..], home, at)
        decreases Steps(home, free, table.Length) - Steps(home, at, table.Length)
      {
        FullStep(table[..], home, at, free);
        at := Next(at, table.Length);
      }
    }

    /** hash_insert as add_label and add_define call it: the name is new. */
    method Insert(e: Entry<V>)
      requires Valid() && HasRoom(table[..]) && e.name !in bindings
      modifies this, table
      ensures Valid() && bindings == old(bindings)[e.name := e.value]
      ensures multiset(table[..])[None] == old(multiset(table[..])[None]) - 1
    {
      HashInsert(e);
      bindings := bindings[e.name := e.value];
    }

    /** hash_lookup. */
    method Lookup(name: string) returns (r: Option<Entry<V>>)
      requires Valid() && HasRoom(table[..])
      ensures r == if name in bindings then Some(Entry(name, bindings[name])) else None
    {
      var home := hash(name) % table.Length;
      var at: nat := home;
      ghost var free := FreeSlot(table[..]);
      while table[at].Some? && name != table[at].value.name
        invariant at < table.Length && Steps(home, at, table.Length) <= Steps(home, free, table.Length)
        invariant FullBefore(table[..], home, at) && OthersBefore(table[..], home, at, name)
        decreases Steps(home, free, table.Length) - Steps(home, at, table.Length)
      {
        FullStep(table[..], home, at, free);
        OthersStep(table[..], home, at, free, name);
        at := Next(at, table.Length);
      }
      r := table[at];
      ProbeEnd(table[..], hash, bindings, name, at);
    }

    /** The loop of hash_remove that empties the clump into the rehash array. */
    method PullOut(start: nat) returns (rehash: seq<Entry<V>>)
      requires WellProbed() && HasRoom(table[..]) && start < table.Length
      modifies table
      ensures WellProbed()
      ensures PulledOut(old(table[..]), start, rehash) && table[..] == Emptied(old(table[..]), start, |rehash|)
      ensures Moved(old(table[..]), table[..], rehash)
    {
      ghost var before := table[..];
      ghost var free := FreeSlot(before);
      var clump: nat := start;
      rehash := [];
      assert before == Emptied(before, start, 0);
      while table[clump].Some?
        invariant clump < table.Length && Steps(start, clump, table.Length) == |rehash|
        invariant |rehash| <= Steps(start, free, table.Length)
        invariant table[..] == Emptied(before, start, |rehash|)
        invariant RunAt(before, start, rehash) && Moved(before, table[..], rehash)
        decreases Steps(start, free, table.Length) - |rehash|
      {
        ghost var now := table[..];
        PullStep(before, now, start, rehash, clump);
        PullNext(before, start, |rehash|, clump, free);
        rehash := rehash + [table[clump].value];
        table[clump] := None;
        assert table[..] == now[clump := None];
        clump := Next(clump, table.Length);
      }
      PullDone(before, table[..], hash, start, rehash, clump);
    }

    /** The loop of hash_remove that puts the rest of the clump back. */
    method Rehash(rehash: seq<Entry<V>>, name: string) returns (callbacks: seq<Entry<V>>)
      requires WellProbed() && multiset(table[..])[None] > |rehash|
      modifies table
      ensures WellProbed() && HasRoom(table[..])
      ensures callbacks == Named(rehash, name, true)
      ensures PutBack(old(table[..]), table[..], rehash, name)
    {
      ghost var before := table[..];
      callbacks := [];
      for i := 0 to |rehash|
        invariant WellProbed() && multiset(table[..])[None] > |rehash| - i
        invariant callbacks == Named(rehash[..i], name, true)
        invariant PutBack(before, table[..], rehash[..i], name)
      {
        ghost var now := table[..];
        NamedGrows(rehash, i, name, true);
        if rehash[i].name != name {
          HashInsert(rehash[i]);
          PutBackOne(before, now, table[..], rehash, i, name);
          RoomLeft(now, table[..], rehash[i]);
        } else {
          callbacks := callbacks + [rehash[i]];
          DropOne(before, now, rehash, i, name);
        }
      }
      assert rehash[..|rehash|] == rehash;
    }

    /** hash_remove, for a scan that ends. The callbacks are the entries handed to remove_callback. */
    method HashRemove(name: string) returns (found: bool, callbacks: seq<Entry<V>>)
      requires Valid() && HasRoom(table[..]) && ScanEnds(table[..], hash, name)
      modifies this, table
      ensures Valid() && HasRoom(table[..]) && ScanStop(old(table[..]), hash, name).Some?
      ensures var reached := Reaches(old(table[..]), RemovalStart(old(table[..]), hash, name), name);
        && bindings == (if reached then old(bindings) - {name} else old(bindings))
        && (bindings == old(bindings) - {name} <==> name !in old(bindings) || reached)
        && multiset(callbacks) == Removed(old(bindings), name, reached)
      ensures found == old(table[..])[RemovalStart(old(table[..]), hash, name)].Some?
    {
      ghost var before := table[..];
      ScanEndsIff(before, hash, name);
      var start := FindStart(name);
      var rehash := PullOut(start);
      ghost var emptied := table[..];
      PulledSome(before, start, rehash);
      found := |rehash| > 0;
      callbacks := Rehash(rehash, name);
      RemovalRepresents(before, emptied, table[..], start, rehash, name, bindings);
      Without(bindings, name);
      bindings := if Reaches(before, start, name) then bindings - {name} else bindings;
    }

    /** The backward scan of hash_remove, and the slot behind the one where it stops. */
    method FindStart(name: string) returns (start: nat)
      requires WellProbed() && ScanStop(table[..], hash, name).Some?
      ensures start == RemovalStart(table[..], hash, name)
    {
      var h := hash(name);
      var clump: nat := ScanStart(h, table.Length);
      ghost var left: nat := table.Length;
      while table[clump].Some? && hash(table[clump].value.name) == h
        invariant clump < table.Length
        invariant ScanBack(table[..], hash, h, clump, left) == ScanStop(table[..], hash, name)
        decreases left
      {
        ScanStep(table[..], hash, h, clump, left);
        clump := Previous(clump, table.Length);
        left := left - 1;
      }
      start := Next(clump, table.Length);
    }

    /** A name whose hash is not zero, or any name if the size divides 2^32, is always removed. */
    method Remove(name: string) returns (found: bool, callbacks: seq<Entry<V>>)
      requires Valid() && HasRoom(table[..]) && (hash(name) != 0 || HASH_RANGE % table.Length == 0)
      modifies this, table
      ensures Valid() && HasRoom(table[..])
      ensures bindings == old(bindings) - {name}
      ensures multiset(callbacks)
        == if name in old(bindings) then multiset{Entry(name, old(bindings)[name])} else multiset{}
      ensures name in old(bindings) ==> found
    {
      ScanCannotMove(table[..], hash, hash(name));
      ScanStartsBelowHome(hash(name), table.Length);
      HomeReaches(table[..], hash, bindings, name);
      ScanEndsIff(table[..], hash, name);
      found, callbacks := HashRemove(name);
    }
  }
}
