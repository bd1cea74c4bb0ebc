/**
 * The level registry and the unlock engine of the Natas wargame harness
 * (class `Natas` and the level slots of `NatasLevelBase` in lib/natas.rb).
 *
 * Each level is an object holding its index, its login and the password that
 * unlocks it. The engine runs the level under the cursor with its password
 * and writes the password it finds into the level with the next index.
 */
module Registry {
  import opened Wrappers
  import opened Text
  import Sorting

  /** `Natas::MAXLEVEL`: the highest level number the shell accepts. */
  const MaxLevel: int := 34
  /** `NatasLevelBase::LOGIN`, the prefix of every level's login. */
  const Login: string := "natas"
  /** `NatasLevel0::PASSWORD`, the only password known before any level is solved. */
  const Level0Password: string := "natas0"

  /**
   * What a level's `exec` does: it returns a value (the password it found, or
   * nil for a level whose class has no exploit yet) or it raises.
   */
  datatype Attempt = Returned(value: Option<string>) | Raised(message: string)

  /**
   * The network and the page scraping behind every level's `exec`: what `exec`
   * of the level with this index does when it logs in with this password.
   */
  type Exploit = (nat, string) -> Attempt

  /** One level object: `NatasLevelBase` with its `login` and `password` slots. */
  class Level {
    const index: nat
    const login: string
    var password: Option<string>

    /** `NatasLevelBase#initialize`, and `NatasLevel0#initialize` for index 0. */
    constructor (index: nat)
      ensures this.index == index
      ensures login == Login + Decimal(index)
      ensures password == if index == 0 then Some(Level0Password) else None
    {
      this.index := index;
      login := Login + Decimal(index);
      password := if index == 0 then Some(Level0Password) else None;
    }
  }

  /** The comparison block of `sort!`: `a.level <=> b.level`. */
  function ByIndex(a: Level, b: Level): bool {
    a.index <= b.index
  }

  /** The part of a level that changes and is saved: its index and its password. */
  datatype Entry = Entry(index: nat, password: Option<string>)

  function Snapshot(ls: seq<Level>): (es: seq<Entry>)
    reads ls
    ensures |es| == |ls|
    ensures forall k :: 0 <= k < |ls| ==> es[k] == Entry(ls[k].index, ls[k].password)
  {
    seq(|ls|, k reads ls requires 0 <= k < |ls| => Entry(ls[k].index, ls[k].password))
  }

  function Indexes(es: seq<Entry>): set<int> {
    set k | 0 <= k < |es| :: es[k].index as int
  }

  ghost predicate SameIndices(a: seq<Entry>, b: seq<Entry>) {
    |a| == |b| && forall k :: 0 <= k < |a| ==> a[k].index == b[k].index
  }

  ghost predicate DistinctIndices(es: seq<Entry>) {
    forall j, k :: 0 <= j < k < |es| ==> es[j].index != es[k].index
  }

  /** `levels.detect { |l| l.level == i }`: the position of the first level with index `i`. */
  function Find(es: seq<Entry>, i: int): (r: Option<nat>)
    ensures r.Some? ==> r.value < |es| && es[r.value].index == i
    ensures r.Some? ==> forall j :: 0 <= j < r.value ==> es[j].index != i
    ensures r.None? ==> forall j :: 0 <= j < |es| ==> es[j].index != i
  {
    if es == [] then None
    else if es[0].index == i then Some(0)
    else match Find(es[1..], i)
      case None =>
        assert forall k :: 1 <= k < |es| ==> es[k] == es[1..][k - 1];
        None
      case Some(k) => Some(k + 1)
  }

  /** `detect` finds a level exactly when some level has the index. */
  lemma FindIndexes(es: seq<Entry>, i: int)
    ensures Find(es, i).None? <==> i !in Indexes(es)
  {
    if Find(es, i).Some? {
      assert es[Find(es, i).value].index as int in Indexes(es);
    }
  }

  function CursorText(cursor: Option<int>): string {
    match cursor
    case None => ""
    case Some(i) => IntToString(i)
  }

  /** The message raised when no level has the cursor's index. */
  function NotImplemented(cursor: Option<int>): string {
    "Level " + CursorText(cursor) + " not implemented"
  }

  /** The message raised when the selected level has no password. */
  function NoPassword(i: int): string {
    "Level " + IntToString(i) + " has no password"
  }

  /** The cursor selects a level and that level has a password. */
  ghost predicate Ready(es: seq<Entry>, cursor: Option<int>) {
    cursor.Some? && Find(es, cursor.value).Some? && es[Find(es, cursor.value).value].password.Some?
  }

  /** What the selected level's `exec` does when it is run. */
  ghost function Outcome(es: seq<Entry>, cursor: Option<int>, exploit: Exploit): Attempt
    requires Ready(es, cursor)
  {
    var e := es[Find(es, cursor.value).value];
    exploit(e.index, e.password.value)
  }

  /** The result of one `Natas#exec` and the levels afterwards. */
  datatype Unlock = Unlock(result: Result<Option<string>, string>, entries: seq<Entry>)

  /**
   * `Natas#exec` on values: the level under the cursor must exist and have a
   * password; it is run with that password, and what it returns becomes the
   * password of the first level whose index is one more than the cursor.
   */
  function Run(es: seq<Entry>, cursor: Option<int>, exploit: Exploit): (u: Unlock)
    ensures SameIndices(u.entries, es)
    // the two preconditions, checked in this order, and the level's own failure
    ensures !Ready(es, cursor) && (cursor.None? || Find(es, cursor.value).None?) ==>
              u == Unlock(Failure(NotImplemented(cursor)), es)
    ensures !Ready(es, cursor) && cursor.Some? && Find(es, cursor.value).Some? ==>
              u == Unlock(Failure(NoPassword(cursor.value)), es)
    ensures Ready(es, cursor) && Outcome(es, cursor, exploit).Raised? ==>
              u == Unlock(Failure(Outcome(es, cursor, exploit).message), es)
    // success comes exactly from a ready level whose exec returned
    ensures u.result.Success? <==> Ready(es, cursor) && Outcome(es, cursor, exploit).Returned?
    ensures u.result.Failure? ==> u.entries == es
    // propagation: at most one password changes, that of the first level at cursor + 1,
    // and it becomes exactly what the level returned, which is also the result
    ensures u.result.Success? ==>
              var next := Find(es, cursor.value + 1);
              var v := Outcome(es, cursor, exploit).value;
              && (next.Some? ==> u.entries[next.value].password == v && u.result.value == v)
              && (next.None? ==> u.entries == es && u.result.value == None)
    ensures forall k :: 0 <= k < |es| && (cursor.None? || Find(es, cursor.value + 1) != Some(k)) ==>
              u.entries[k] == es[k]
  {
    if cursor.None? then Unlock(Failure(NotImplemented(cursor)), es)
    else match Find(es, cursor.value)
      case None => Unlock(Failure(NotImplemented(cursor)), es)
      case Some(k) =>
        match es[k].password
        case None => Unlock(Failure(NoPassword(cursor.value)), es)
        case Some(pw) =>
          match exploit(es[k].index, pw)
          case Raised(m) => Unlock(Failure(m), es)
          case Returned(v) =>
            match Find(es, cursor.value + 1)
            case None => Unlock(Success(None), es)
            case Some(j) => Unlock(Success(v), es[j := Entry(es[j].index, v)])
  }

  /** `Run` once the selected level `k` has been run with its password. */
  lemma RunAttempted(es: seq<Entry>, i: int, exploit: Exploit, k: nat)
    requires Find(es, i) == Some(k) && es[k].password.Some?
    ensures var a := exploit(es[k].index, es[k].password.value);
            var next := Find(es, i + 1);
            Run(es, Some(i), exploit) ==
              if a.Raised? then Unlock(Failure(a.message), es)
              else if next.None? then Unlock(Success(None), es)
              else Unlock(Success(a.value), es[next.value := Entry(es[next.value].index, a.value)])
  {
  }

  /** A level without a password is never run: what the engine does then cannot depend on the exploit. */
  lemma NoPasswordNoAttempt(es: seq<Entry>, i: int, e1: Exploit, e2: Exploit)
    requires i in Indexes(es) && es[Find(es, i).value].password.None?
    ensures Run(es, Some(i), e1) == Run(es, Some(i), e2)
  {
  }

  /**
   * The map `to_yaml` serialises: every level's index mapped to its password,
   * nil included; of two levels with one index the later one's password is kept.
   */
  function Dump(es: seq<Entry>): (m: map<int, Option<string>>)
    ensures m.Keys == Indexes(es)
    ensures forall k :: 0 <= k < |es| && (forall j :: k < j < |es| ==> es[j].index != es[k].index) ==>
              m[es[k].index] == es[k].password
  {
    if es == [] then map[]
    else
      var last := es[|es| - 1];
      var d := Dump(es[..|es| - 1]);
      DumpStep(es, d);
      d[last.index := last.password]
  }

  /** One more level written by the loop of `to_yaml`. */
  lemma DumpSnoc(es: seq<Entry>, i: nat)
    requires i < |es|
    ensures Dump(es[..i + 1]) == Dump(es[..i])[es[i].index := es[i].password]
  {
    assert es[..i + 1][..i] == es[..i];
  }

  /** The last level's entry overrides what the levels before it recorded. */
  lemma DumpStep(es: seq<Entry>, d: map<int, Option<string>>)
    requires es != []
    requires var init := es[..|es| - 1];
             && d.Keys == Indexes(init)
             && forall k :: 0 <= k < |init| && (forall j :: k < j < |init| ==> init[j].index != init[k].index) ==>
                  d[init[k].index] == init[k].password
    ensures var m := d[es[|es| - 1].index := es[|es| - 1].password];
            && m.Keys == Indexes(es)
            && forall k :: 0 <= k < |es| && (forall j :: k < j < |es| ==> es[j].index != es[k].index) ==>
                 m[es[k].index] == es[k].password
  {
    var init, last := es[..|es| - 1], es[|es| - 1];
    assert forall k :: 0 <= k < |init| ==> init[k] == es[k];
    IndexesSnoc(es);
  }

  lemma IndexesSnoc(es: seq<Entry>)
    requires es != []
    ensures Indexes(es) == Indexes(es[..|es| - 1]) + {es[|es| - 1].index as int}
  {
    var init, last := es[..|es| - 1], es[|es| - 1];
    forall i | i in Indexes(es) ensures i in Indexes(init) + {last.index as int} {
      var k :| 0 <= k < |es| && es[k].index == i;
      if k < |es| - 1 { assert init[k] == es[k]; }
    }
    forall i | i in Indexes(init) ensures i in Indexes(es) {
      var k :| 0 <= k < |init| && init[k].index == i;
      assert es[k] == init[k];
    }
  }

  /**
   * The loop of `Shell#initialize` over the levels: each level's password
   * becomes `config.fetch(index, nil)`, the built-in password of level 0 included.
   */
  function Loaded(es: seq<Entry>, config: map<int, Option<string>>): (r: seq<Entry>)
    ensures SameIndices(r, es)
  {
    seq(|es|, k requires 0 <= k < |es| =>
      Entry(es[k].index, if es[k].index as int in config then config[es[k].index] else None))
  }

  /** Saving and loading again restores every password, when no two levels share an index. */
  lemma {:induction false} DumpLoaded(es: seq<Entry>, before: seq<Entry>)
    requires SameIndices(before, es) && DistinctIndices(es)
    ensures Loaded(before, Dump(es)) == es
  {
    var r := Loaded(before, Dump(es));
    forall k | 0 <= k < |es| ensures r[k] == es[k] {
      assert es[k].index as int in Indexes(es);
    }
  }

  /** A saved key that matches no level is ignored when loading. */
  lemma LoadedIgnoresUnknown(es: seq<Entry>, config: map<int, Option<string>>, i: int, v: Option<string>)
    requires i !in Indexes(es)
    ensures Loaded(es, config[i := v]) == Loaded(es, config)
  {
    var a, b := Loaded(es, config[i := v]), Loaded(es, config);
    forall k | 0 <= k < |es| ensures a[k] == b[k] {
      assert es[k].index as int in Indexes(es);
    }
  }

  /** The registry: class `Natas`, its sorted `levels` and its cursor `level`. */
  class Natas {
    var levels: seq<Level>
    var level: Option<int>

    ghost predicate Valid()
      reads this
    {
      Sorting.SortedBy(ByIndex, levels) && Sorting.Distinct(levels)
    }

    /**
     * `Natas#initialize`: one new level object per discovered level class
     * (listed by its `LEVEL` constant, in discovery order), sorted by index.
     */
    constructor (classes: seq<nat>)
      ensures Valid() && level == None
      ensures forall l :: l in levels ==> fresh(l)
      ensures |levels| == |classes|
      ensures multiset(Sorting.MapSeq(LevelIndex, levels)) == multiset(classes)
      ensures forall l :: l in levels ==> Fresh(l)
    {
      var found := Instantiate(classes);
      var sorted := SortLevels(found);
      levels := sorted;
      level := None;
    }

    /**
     * `Natas#exec`. The cursor is not changed; only the level at cursor + 1
     * is written to, as `Run` says.
     */
    method Exec(exploit: Exploit) returns (r: Result<Option<string>, string>)
      requires Valid()
      modifies levels
      ensures var u := Run(old(Snapshot(levels)), level, exploit);
              r == u.result && Snapshot(levels) == u.entries
    {
      var es := Snapshot(levels);
      if level.None? {
        return Failure(NotImplemented(level));
      }
      var cur := Find(es, level.value);
      if cur.None? {
        return Failure(NotImplemented(level));
      }
      var selected := levels[cur.value];
      assert selected.index == es[cur.value].index && selected.password == es[cur.value].password;
      if selected.password.None? {
        return Failure(NoPassword(level.value));
      }
      var outcome := exploit(selected.index, selected.password.value);
      RunAttempted(es, level.value, exploit, cur.value);
      if outcome.Raised? {
        return Failure(outcome.message);
      }
      var next := Find(es, level.value + 1);
      if next.None? {
        return Success(None);
      }
      SetPassword(levels, next.value, outcome.value);
      return Success(outcome.value);
    }

    /** The map `Natas#to_yaml` builds before handing it to `YAML.dump`. */
    method ToYaml() returns (data: map<int, Option<string>>)
      ensures data == Dump(Snapshot(levels))
    {
      data := map[];
      var i := 0;
      ghost var es := Snapshot(levels);
      while i < |levels|
        invariant 0 <= i <= |levels|
        invariant data == Dump(es[..i])
      {
        DumpSnoc(es, i);
        data := data[levels[i].index := levels[i].password];
        i := i + 1;
      }
      assert es[..|levels|] == es;
    }
  }

  /** The state `NatasLevelBase#initialize` leaves a level in. */
  ghost predicate Fresh(l: Level)
    reads l
  {
    l.login == Login + Decimal(l.index) &&
    l.password == if l.index == 0 then Some(Level0Password) else None
  }

  /** The `c.new` of every discovered level class, in discovery order. */
  method Instantiate(classes: seq<nat>) returns (found: seq<Level>)
    ensures Sorting.MapSeq(LevelIndex, found) == classes
    ensures forall l :: l in found ==> fresh(l) && Fresh(l)
    ensures forall x :: multiset(found)[x] <= 1
  {
    found := [];
    var i := 0;
    while i < |classes|
      invariant 0 <= i <= |classes| && |found| == i
      invariant forall k :: 0 <= k < i ==> found[k].index == classes[k]
      invariant forall l :: l in found ==> fresh(l) && Fresh(l)
      invariant forall x :: multiset(found)[x] <= 1
    {
      var l := new Level(classes[i]);
      found := found + [l];
      i := i + 1;
    }
  }

  /** `@levels.sort! { |a, b| a.level <=> b.level }`. */
  method SortLevels(found: seq<Level>) returns (sorted: seq<Level>)
    requires forall x :: multiset(found)[x] <= 1
    ensures Sorting.SortedBy(ByIndex, sorted) && Sorting.Distinct(sorted)
    ensures multiset(sorted) == multiset(found) && |sorted| == |found|
    ensures forall l :: l in sorted ==> l in found
    ensures multiset(Sorting.MapSeq(LevelIndex, sorted)) == multiset(Sorting.MapSeq(LevelIndex, found))
  {
    ByIndexPreorder(found);
    sorted := Sorting.InsertionSort(found, ByIndex);
    assert |sorted| == |multiset(sorted)| == |multiset(found)| == |found|;
    assert forall x :: multiset(sorted)[x] == multiset(found)[x];
    Sorting.CountsDistinct(sorted);
    Sorting.MapPermutation(LevelIndex, found, sorted);
    assert forall l :: l in sorted ==> l in multiset(found);
  }

  /** `level.password = password` on the level at position `j`: no other level changes. */
  method SetPassword(ls: seq<Level>, j: nat, v: Option<string>)
    requires j < |ls| && Sorting.Distinct(ls)
    modifies ls[j]
    ensures Snapshot(ls) == old(Snapshot(ls))[j := Entry(ls[j].index, v)]
  {
    ls[j].password := v;
    forall k | 0 <= k < |ls| && k != j ensures ls[k].password == old(ls[k].password) {
      assert ls[k] != ls[j];
    }
  }

  /** `level.level`, the `LEVEL` constant of a level's class. */
  function LevelIndex(l: Level): nat {
    l.index
  }

  /** `ByIndex` orders any list of levels. */
  lemma ByIndexPreorder(ls: seq<Level>)
    ensures Sorting.PreorderOn(ByIndex, ls)
  {
  }
}
