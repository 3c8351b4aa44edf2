/**
 The debounce filter of myKeyboard.c (`myKeyboardRead`). The keys are coupled: whenever the
 raw reading of one key starts to differ, the filters of all keys restart.
 */
module Debounce {
  /** One registered key: accepted status, last differing reading, and remaining scans. */
  datatype Key = Key(value: bv32, status: nat, tmp: nat, filter: nat)

  /** Key `k` restarts the filters when it reads `r`. */
  predicate Restarts(k: Key, r: nat) {
    r != k.status && r != k.tmp
  }

  /** The three branches for one key, without the restart of the other keys. */
  function Process(k: Key, r: nat, count: nat): Key {
    if r == k.status then k.(filter := 0, tmp := k.status)
    else if r != k.tmp then k.(filter := count, tmp := r)
    else if k.filter > 1 then k.(filter := k.filter - 1)
    else k.(filter := 0, status := r)
  }

  /** Some key with index in `lo..hi` restarts the filters. */
  predicate AnyRestart(keys: seq<Key>, raw: seq<nat>, lo: nat, hi: nat)
    requires hi <= |keys| == |raw|
  {
    exists j :: lo <= j < hi && Restarts(keys[j], raw[j])
  }

  function Restarted(k: Key, restart: bool, count: nat): Key {
    if restart then k.(filter := count) else k
  }

  /**
   Key `i` after the first `m` keys of a scan: restarts by earlier keys come before its own
   step, restarts by later keys after it.
   */
  function KeyAfter(keys: seq<Key>, raw: seq<nat>, count: nat, m: nat, i: nat): Key
    requires m <= |keys| == |raw| && i < |keys|
  {
    if i < m then
      Restarted(Process(Restarted(keys[i], AnyRestart(keys, raw, 0, i), count), raw[i], count),
                AnyRestart(keys, raw, i + 1, m), count)
    else
      Restarted(keys[i], AnyRestart(keys, raw, 0, m), count)
  }

  function KeysAfter(keys: seq<Key>, raw: seq<nat>, count: nat, m: nat): (r: seq<Key>)
    requires m <= |keys| == |raw|
    ensures |r| == |keys|
  {
    seq(|keys|, i requires 0 <= i < |keys| => KeyAfter(keys, raw, count, m, i))
  }

  /** All keys after one scan. */
  function Scan(keys: seq<Key>, raw: seq<nat>, count: nat): (r: seq<Key>)
    requires |keys| == |raw|
    ensures |r| == |keys|
  {
    KeysAfter(keys, raw, count, |keys|)
  }

  // ---------- runs of scans, registrations and removals ----------

  /** What happens to the keyboard's keys. */
  datatype Change = ScanOf(raw: seq<nat>) | Register(value: bv32) | Remove(at: nat)

  /** The registered keys, and for each the readings since it was registered, oldest first. */
  datatype Bank = Bank(keys: seq<Key>, readings: seq<seq<nat>>)

  function Drop<T>(s: seq<T>, at: nat): (r: seq<T>)
    requires at < |s|
    ensures |r| == |s| - 1
    ensures forall i :: 0 <= i < |r| ==> r[i] == s[if i < at then i else i + 1]
  {
    s[..at] + s[at + 1..]
  }

  function Apply(b: Bank, c: Change, count: nat): (b': Bank)
    requires |b.keys| == |b.readings|
    ensures |b'.keys| == |b'.readings|
  {
    match c
    case ScanOf(raw) =>
      if |raw| != |b.keys| then b
      else Bank(Scan(b.keys, raw, count), seq(|raw|, i requires 0 <= i < |raw| => b.readings[i] + [raw[i]]))
    case Register(value) => Bank(b.keys + [Key(value, 0, 0, 0)], b.readings + [[]])
    case Remove(at) => if at >= |b.keys| then b else Bank(Drop(b.keys, at), Drop(b.readings, at))
  }

  /** All changes from the empty keyboard on, oldest first. */
  function Replay(changes: seq<Change>, count: nat): (b: Bank)
    ensures |b.keys| == |b.readings|
  {
    if changes == [] then Bank([], [])
    else Apply(Replay(changes[..|changes| - 1], count), changes[|changes| - 1], count)
  }

  /** For how many readings up to the last one a key has read what it reads last. */
  function Held(readings: seq<nat>): (n: nat)
    ensures n <= |readings|
    ensures readings != [] ==> n > 0
  {
    if readings == [] then 0
    else if |readings| == 1 then 1
    else if readings[|readings| - 2] != readings[|readings| - 1] then 1
    else Held(readings[..|readings| - 1]) + 1
  }

  /** The last `n` readings are all `v`. */
  ghost predicate HeldFor(readings: seq<nat>, v: nat, n: nat) {
    n <= |readings| && forall t :: |readings| - n <= t < |readings| ==> readings[t] == v
  }

  lemma {:induction false} HeldMeans(readings: seq<nat>)
    requires readings != []
    ensures HeldFor(readings, readings[|readings| - 1], Held(readings))
  {
    if |readings| > 1 && readings[|readings| - 2] == readings[|readings| - 1] {
      HeldMeans(readings[..|readings| - 1]);
    }
  }

  lemma HeldStep(readings: seq<nat>, r: nat)
    ensures Held(readings + [r]) == if readings != [] && readings[|readings| - 1] == r then Held(readings) + 1 else 1
  {
    assert (readings + [r])[..|readings|] == readings;
  }

  /** The scans that a new reading must hold before it is accepted. */
  function Needed(count: nat): nat {
    if count == 0 then 2 else count + 1
  }

  /** What one scan does to key `i`, whatever the other keys do. */
  lemma ScanStep(keys: seq<Key>, raw: seq<nat>, count: nat, i: nat)
    requires i < |keys| == |raw|
    ensures var k, k', r := keys[i], Scan(keys, raw, count)[i], raw[i];
            && k'.tmp == r
            && (k'.status != k.status ==> k'.status == r == k.tmp && (k.filter <= 1 || count <= 1))
            && (k'.tmp != k'.status && r != k.tmp ==> k'.filter == count)
            && (k'.tmp != k'.status && r == k.tmp ==> k'.filter + 1 >= k.filter || k'.filter + 1 >= count)
            && (k'.tmp != k'.status && count > 0 ==> k'.filter > 0)
  {}

  /**
   What every run keeps of a key with the given readings: it remembers the last one, and a filter
   that is still running leaves at least the missing scans.
   */
  predicate Settled(k: Key, readings: seq<nat>, count: nat) {
    if readings == [] then k.status == 0 && k.tmp == 0 && k.filter == 0
    else
      && k.tmp == readings[|readings| - 1]
      && (k.tmp != k.status ==> k.filter + Held(readings) >= count + 1 && (count > 0 ==> k.filter > 0))
  }

  lemma ScanSettles(keys: seq<Key>, raw: seq<nat>, count: nat, i: nat, readings: seq<nat>)
    requires i < |keys| == |raw| && Settled(keys[i], readings, count)
    ensures Settled(Scan(keys, raw, count)[i], readings + [raw[i]], count)
  {
    hide Scan, Held;
    ScanStep(keys, raw, count, i);
    HeldStep(readings, raw[i]);
  }

  ghost predicate AllSettled(b: Bank, count: nat)
    requires |b.keys| == |b.readings|
  {
    forall i :: 0 <= i < |b.keys| ==> Settled(b.keys[i], b.readings[i], count)
  }

  lemma ChangeSettles(b: Bank, c: Change, count: nat)
    requires |b.keys| == |b.readings| && AllSettled(b, count)
    ensures AllSettled(Apply(b, c, count), count)
  {
    hide Scan, Held;
    var b' := Apply(b, c, count);
    match c {
      case ScanOf(raw) =>
        if |raw| == |b.keys| {
          forall i | 0 <= i < |b.keys|
            ensures Settled(b'.keys[i], b'.readings[i], count)
          {
            ScanSettles(b.keys, raw, count, i, b.readings[i]);
          }
        }
      case Register(value) =>
      case Remove(at) =>
    }
  }

  /** The invariant over every run, however registrations and removals are mixed with scans. */
  lemma {:induction false} FilterInvariant(changes: seq<Change>, count: nat)
    ensures AllSettled(Replay(changes, count), count)
  {
    hide AllSettled, Apply;
    if changes == [] {
      NoKeys(count);
    } else {
      FilterInvariant(changes[..|changes| - 1], count);
      ChangeSettles(Replay(changes[..|changes| - 1], count), changes[|changes| - 1], count);
    }
  }

  lemma NoKeys(count: nat)
    ensures AllSettled(Bank([], []), count)
  {}

  /** A key whose status changes in a scan has read the new status often enough. */
  lemma SettledChangeIsHeld(keys: seq<Key>, raw: seq<nat>, count: nat, i: nat, readings: seq<nat>)
    requires i < |keys| == |raw| && Settled(keys[i], readings, count)
    requires Scan(keys, raw, count)[i].status != keys[i].status
    ensures Scan(keys, raw, count)[i].status == raw[i]
    ensures HeldFor(readings + [raw[i]], raw[i], Needed(count))
  {
    hide Scan, Held;
    ScanStep(keys, raw, count, i);
    if readings != [] {
      HeldMeans(readings);
    }
  }

  /**
   Debounce safety: in every run, whatever the other keys do, the accepted status of a key
   changes only to a reading that it has held for at least `Needed(count)` consecutive scans.
   */
  lemma StatusChangeIsHeld(changes: seq<Change>, raw: seq<nat>, count: nat, i: nat)
    requires i < |Replay(changes, count).keys| == |raw|
    requires Scan(Replay(changes, count).keys, raw, count)[i].status != Replay(changes, count).keys[i].status
    ensures Scan(Replay(changes, count).keys, raw, count)[i].status == raw[i]
    ensures HeldFor(Replay(changes, count).readings[i] + [raw[i]], raw[i], Needed(count))
  {
    hide Scan, Replay, Settled;
    FilterInvariant(changes, count);
    var b := Replay(changes, count);
    SettledChangeIsHeld(b.keys, raw, count, i, b.readings[i]);
  }

  // ---------- liveness ----------

  /** Every scan reads `n` keys. */
  ghost predicate Rows(rows: seq<seq<nat>>, n: nat) {
    forall t :: 0 <= t < |rows| ==> |rows[t]| == n
  }

  /** All keys after some scans, oldest first. */
  ghost function Scans(keys: seq<Key>, rows: seq<seq<nat>>, count: nat): (r: seq<Key>)
    requires Rows(rows, |keys|)
    ensures |r| == |keys|
  {
    if rows == [] then keys
    else Scan(Scans(keys, rows[..|rows| - 1], count), rows[|rows| - 1], count)
  }

  function ScanChanges(rows: seq<seq<nat>>): seq<Change> {
    seq(|rows|, t requires 0 <= t < |rows| => ScanOf(rows[t]))
  }

  lemma {:induction false} ReplayScans(changes: seq<Change>, rows: seq<seq<nat>>, count: nat)
    requires Rows(rows, |Replay(changes, count).keys|)
    ensures Replay(changes + ScanChanges(rows), count).keys == Scans(Replay(changes, count).keys, rows, count)
  {
    hide Scan;
    if rows == [] {
      assert changes + ScanChanges(rows) == changes;
    } else {
      var n := |rows| - 1;
      ReplayScans(changes, rows[..n], count);
      var all := changes + ScanChanges(rows);
      assert all[..|all| - 1] == changes + ScanChanges(rows[..n]);
    }
  }

  /** No key but `i` reads differently in `row` and in `next`. */
  ghost predicate OthersSteady(row: seq<nat>, next: seq<nat>, i: nat) {
    |row| == |next| && forall j :: 0 <= j < |row| && j != i ==> next[j] == row[j]
  }

  /** A key that no other key restarts takes its own step only. */
  lemma UndisturbedStep(keys: seq<Key>, raw: seq<nat>, count: nat, i: nat)
    requires i < |keys| == |raw|
    requires forall j :: 0 <= j < |keys| && j != i ==> raw[j] == keys[j].tmp
    ensures Scan(keys, raw, count)[i] == Process(keys[i], raw[i], count)
  {}

  /** In all these scans, key `i` reads `v` and no other key changes. */
  ghost predicate Steady(rows: seq<seq<nat>>, i: nat, v: nat) {
    && (forall t :: 0 <= t < |rows| ==> i < |rows[t]| && rows[t][i] == v)
    && (forall t :: 0 < t < |rows| ==> OthersSteady(rows[t - 1], rows[t], i))
  }

  lemma SteadyAt(rows: seq<seq<nat>>, i: nat, v: nat, t: nat)
    requires Steady(rows, i, v) && t < |rows|
    ensures i < |rows[t]| && rows[t][i] == v
    ensures t > 0 ==> OthersSteady(rows[t - 1], rows[t], i)
  {}

  lemma SteadyPrefix(rows: seq<seq<nat>>, n: nat, i: nat, v: nat)
    requires Steady(rows, i, v) && n <= |rows|
    ensures Steady(rows[..n], i, v)
  {}

  /** How far key `k` has come after `m` scans of the new reading `v`. */
  predicate Coming(k: Key, s: nat, v: nat, m: nat, count: nat) {
    if m >= Needed(count) then k.status == v
    else k.status == s && k.tmp == v && k.filter == count + 1 - m
  }

  /**
   From any keys: a new reading that holds while no other reading changes is accepted with its
   `Needed(count)`-th scan and not before.
   */
  lemma {:induction false} AcceptedAfter(keys: seq<Key>, rows: seq<seq<nat>>, count: nat, i: nat, v: nat)
    requires i < |keys| && Rows(rows, |keys|) && Steady(rows, i, v) && 0 < |rows| <= Needed(count)
    requires v != keys[i].status && v != keys[i].tmp
    ensures Coming(Scans(keys, rows, count)[i], keys[i].status, v, |rows|, count)
  {
    hide Scan, Steady;
    var n := |rows| - 1;
    SteadyAt(rows, i, v, n);
    if n == 0 {
      assert rows[..0] == [];
      ScanStep(keys, rows[0], count, i);
    } else {
      SteadyPrefix(rows, n, i, v);
      AcceptedAfter(keys, rows[..n], count, i, v);
      OneMoreScan(keys, rows, count, i, v);
    }
    hide Scans;
  }

  /** A further scan of the same reading, with the other keys steady. */
  lemma OneMoreScan(keys: seq<Key>, rows: seq<seq<nat>>, count: nat, i: nat, v: nat)
    requires i < |keys| && Rows(rows, |keys|) && |rows| > 1
    requires OthersSteady(rows[|rows| - 2], rows[|rows| - 1], i) && rows[|rows| - 1][i] == v
    ensures Scans(keys, rows, count)[i] == Process(Scans(keys, rows[..|rows| - 1], count)[i], v, count)
  {
    hide Scan, Process;
    var n := |rows| - 1;
    var ks := Scans(keys, rows[..n], count);
    var before := Scans(keys, rows[..n][..n - 1], count);
    forall j | 0 <= j < |keys|
      ensures ks[j].tmp == rows[n - 1][j]
    {
      ScanStep(before, rows[n - 1], count, j);
    }
    UndisturbedStep(ks, rows[n], count, i);
  }

  /**
   Debounce liveness: in every run, a reading that differs from the accepted status and from the
   reading before, and then holds while no other reading changes, is accepted with its
   `Needed(count)`-th scan and not before.
   */
  lemma AcceptedExactly(changes: seq<Change>, rows: seq<seq<nat>>, count: nat, i: nat, v: nat)
    requires i < |Replay(changes, count).keys| && Rows(rows, |Replay(changes, count).keys|)
    requires Steady(rows, i, v) && 0 < |rows| <= Needed(count)
    requires v != Replay(changes, count).keys[i].status
    requires var readings := Replay(changes, count).readings[i]; readings != [] ==> readings[|readings| - 1] != v
    ensures var k, k' := Replay(changes, count).keys[i], Replay(changes + ScanChanges(rows), count).keys;
            i < |k'| && (k'[i].status == v <==> |rows| == Needed(count)) && (|rows| < Needed(count) ==> k'[i].status == k.status)
  {
    hide Scans, Replay, Steady, Rows, Held;
    FilterInvariant(changes, count);
    var b := Replay(changes, count);
    assert Settled(b.keys[i], b.readings[i], count);
    AcceptedAfter(b.keys, rows, count, i, v);
    ReplayScans(changes, rows, count);
  }

  // ---------- keys restart each other ----------

  /**
   In a scan in which key `j` reads something that differs from its status and from its last
   reading, the filter of every key before `j` is full again afterwards. A key behind `j` that is
   still pending has taken at most its own step off the full filter, and is accepted in that very
   scan only if the filter count is 0 or 1.
   */
  lemma RestartReaches(keys: seq<Key>, raw: seq<nat>, count: nat, i: nat, j: nat)
    requires i < |keys| == |raw| && j < |keys| && i != j
    requires raw[j] != keys[j].status && raw[j] != keys[j].tmp
    ensures var k' := Scan(keys, raw, count)[i];
            && (i < j ==> k'.filter == count)
            && (i > j && raw[i] != k'.status ==> k'.filter == count || (k'.filter + 1 == count && k'.filter > 0))
            && (i > j && k'.status != keys[i].status ==> count <= 1)
  {
    assert Restarts(keys[j], raw[j]);
  }

  /** Without such a key, a pending key that reads the same again takes one step, and no filter is set. */
  lemma NoRestartReaches(keys: seq<Key>, raw: seq<nat>, count: nat, i: nat)
    requires i < |keys| == |raw|
    requires forall j :: 0 <= j < |keys| && j != i ==> raw[j] == keys[j].status || raw[j] == keys[j].tmp
    requires raw[i] == keys[i].tmp && raw[i] != keys[i].status
    ensures var k' := Scan(keys, raw, count)[i];
            if keys[i].filter > 1 then k'.filter == keys[i].filter - 1 && k'.status == keys[i].status
            else k'.filter == 0 && k'.status == raw[i]
  {}

  /** No filter ever exceeds the count. */
  ghost predicate Bounded(keys: seq<Key>, count: nat) {
    forall i :: 0 <= i < |keys| ==> keys[i].filter <= count
  }

  lemma ScanBounded(keys: seq<Key>, raw: seq<nat>, count: nat)
    requires |keys| == |raw| && Bounded(keys, count)
    ensures Bounded(Scan(keys, raw, count), count)
  {}

  lemma {:induction false} ReplayBounded(changes: seq<Change>, count: nat)
    ensures Bounded(Replay(changes, count).keys, count)
  {
    hide Scan;
    if changes != [] {
      var b := Replay(changes[..|changes| - 1], count);
      ReplayBounded(changes[..|changes| - 1], count);
      match changes[|changes| - 1] {
        case ScanOf(raw) => if |raw| == |b.keys| { ScanBounded(b.keys, raw, count); }
        case Register(value) =>
        case Remove(at) =>
      }
    }
  }

  /** The fewest scans after which the status of a key can change. */
  function Distance(k: Key, count: nat): nat {
    if k.tmp == k.status then (if count == 0 then 2 else count + 1)
    else if k.filter == 0 then 1 else k.filter
  }

  lemma DistanceStep(keys: seq<Key>, raw: seq<nat>, count: nat, i: nat)
    requires i < |keys| == |raw| && Bounded(keys, count) && Distance(keys[i], count) > 1
    ensures var k' := Scan(keys, raw, count)[i];
            k'.status == keys[i].status && Distance(k', count) >= Distance(keys[i], count) - 1
  {}

  /** Whatever the keys read, the status of a key stays for less than `Distance` scans. */
  lemma {:induction false} StaysFor(keys: seq<Key>, rows: seq<seq<nat>>, count: nat, i: nat)
    requires i < |keys| && Rows(rows, |keys|) && Bounded(keys, count) && |rows| < Distance(keys[i], count)
    ensures var ks := Scans(keys, rows, count);
            && ks[i].status == keys[i].status && Bounded(ks, count)
            && Distance(ks[i], count) >= Distance(keys[i], count) - |rows|
  {
    hide Scan, Distance;
    if rows != [] {
      var ks := Scans(keys, rows[..|rows| - 1], count);
      StaysFor(keys, rows[..|rows| - 1], count, i);
      DistanceStep(ks, rows[|rows| - 1], count, i);
      ScanBounded(ks, rows[|rows| - 1], count);
    }
  }

  /** The scans for which a restart by key `j` holds key `i` back. */
  function HeldBack(i: nat, j: nat, count: nat): nat {
    if i < j && count > 1 then count else if i > j && count > 2 then count - 1 else 1
  }

  lemma RestartDistance(keys: seq<Key>, raw: seq<nat>, count: nat, i: nat, j: nat)
    requires i < |keys| == |raw| && j < |keys| && i != j
    requires raw[j] != keys[j].status && raw[j] != keys[j].tmp
    ensures Distance(Scan(keys, raw, count)[i], count) >= HeldBack(i, j, count)
  {
    hide Scan;
    RestartReaches(keys, raw, count, i, j);
    ScanStep(keys, raw, count, i);
  }

  /**
   In every run, after a scan in which key `j` starts to differ, no other key changes its status
   for fewer than `count` further scans if it comes before `j`, and for fewer than `count - 1` if
   it comes behind `j`, whatever all keys read.
   */
  lemma RestartDelays(changes: seq<Change>, raw: seq<nat>, rows: seq<seq<nat>>, count: nat, i: nat, j: nat)
    requires var b := Replay(changes, count);
             && i < |b.keys| == |raw| && j < |b.keys| && i != j && Rows(rows, |b.keys|)
             && raw[j] != b.keys[j].status && raw[j] != b.keys[j].tmp
    requires if i < j then |rows| < count || |rows| == 0 else |rows| + 1 < count || |rows| == 0
    ensures var k, k' := Replay(changes + [ScanOf(raw)], count).keys, Replay(changes + [ScanOf(raw)] + ScanChanges(rows), count).keys;
            i < |k| && i < |k'| && k'[i].status == k[i].status
  {
    hide Scan, Distance;
    var keys := Replay(changes, count).keys;
    assert (changes + [ScanOf(raw)])[..|changes|] == changes;
    var ks := Scan(keys, raw, count);
    assert Replay(changes + [ScanOf(raw)], count).keys == ks;
    ReplayBounded(changes + [ScanOf(raw)], count);
    hide Replay;
    RestartDistance(keys, raw, count, i, j);
    StaysFor(ks, rows, count, i);
    ReplayScans(changes + [ScanOf(raw)], rows, count);
  }

  /** A pending key whose filter leaves `n` scans, from the reading row `row` on. */
  ghost predicate PendingAfter(keys: seq<Key>, row: seq<nat>, i: nat, v: nat, n: nat) {
    && i < |keys| == |row| && (forall j :: 0 <= j < |keys| ==> keys[j].tmp == row[j])
    && keys[i].tmp == v && keys[i].status != v && n == (if keys[i].filter == 0 then 1 else keys[i].filter)
  }

  /** While no other reading changes, a pending key is accepted exactly when its filter has run down. */
  lemma {:induction false} PendingExactly(keys: seq<Key>, row: seq<nat>, rows: seq<seq<nat>>, count: nat, i: nat, v: nat, n: nat)
    requires PendingAfter(keys, row, i, v, n) && Rows(rows, |keys|) && Steady([row] + rows, i, v) && |rows| <= n
    ensures var k := Scans(keys, rows, count)[i];
            k.tmp == v && k.status == (if |rows| < n then keys[i].status else v)
            && (|rows| < n ==> n - |rows| == if k.filter == 0 then 1 else k.filter)
  {
    hide Scan;
    if rows != [] {
      var m := |rows| - 1;
      assert [row] + rows[..m] == ([row] + rows)[..|rows|];
      SteadyPrefix([row] + rows, |rows|, i, v);
      PendingExactly(keys, row, rows[..m], count, i, v, n);
      LastReadings(keys, row, rows[..m], count);
      SteadyAt([row] + rows, i, v, |rows|);
      assert ([row] + rows)[m] == if m == 0 then row else rows[m - 1];
      hide Steady;
      NoRestartReaches(Scans(keys, rows[..m], count), rows[m], count, i);
      ScanStep(Scans(keys, rows[..m], count), rows[m], count, i);
    }
  }

  /** Every key remembers what it read last. */
  lemma LastReadings(keys: seq<Key>, row: seq<nat>, rows: seq<seq<nat>>, count: nat)
    requires |keys| == |row| && Rows(rows, |keys|) && forall j :: 0 <= j < |keys| ==> keys[j].tmp == row[j]
    ensures forall j :: 0 <= j < |keys| ==> Scans(keys, rows, count)[j].tmp == if rows == [] then row[j] else rows[|rows| - 1][j]
  {
    hide Scan;
    if rows != [] {
      forall j | 0 <= j < |keys|
        ensures Scans(keys, rows, count)[j].tmp == rows[|rows| - 1][j]
      {
        ScanStep(Scans(keys, rows[..|rows| - 1], count), rows[|rows| - 1], count, j);
      }
    }
  }

  /** The scans that a filter leaves. */
  function Left(filter: nat): (n: nat)
    ensures n > 0 && n >= filter && (filter > 0 ==> n == filter)
  {
    if filter == 0 then 1 else filter
  }

  /**
   In every run, a key that is pending after key `j` has restarted it is accepted exactly with the
   scan that its filter leaves, when all readings hold from then on: with scan `count` (at least 1)
   if it comes before `j`, and with that scan or the one before if it comes behind `j`.
   */
  lemma RestartThenAccepted(changes: seq<Change>, raw: seq<nat>, rows: seq<seq<nat>>, count: nat, i: nat, j: nat)
    requires var b := Replay(changes, count);
             && i < |b.keys| == |raw| && j < |b.keys| && i != j && Rows(rows, |b.keys|)
             && raw[j] != b.keys[j].status && raw[j] != b.keys[j].tmp
             && raw[i] != Replay(changes + [ScanOf(raw)], count).keys[i].status
    requires Steady([raw] + rows, i, raw[i]) && |rows| <= Left(Replay(changes + [ScanOf(raw)], count).keys[i].filter)
    ensures var n, k' := Left(Replay(changes + [ScanOf(raw)], count).keys[i].filter), Replay(changes + [ScanOf(raw)] + ScanChanges(rows), count).keys;
            && i < |k'| && (k'[i].status == raw[i] <==> |rows| == n)
            && (i < j ==> n == if count == 0 then 1 else count)
            && (i > j ==> n == (if count == 0 then 1 else count) || (n + 1 == count && n > 0))
  {
    hide Scan;
    var keys := Replay(changes, count).keys;
    assert (changes + [ScanOf(raw)])[..|changes|] == changes;
    var ks := Scan(keys, raw, count);
    assert Replay(changes + [ScanOf(raw)], count).keys == ks;
    hide Replay;
    RestartReaches(keys, raw, count, i, j);
    forall m | 0 <= m < |keys|
      ensures ks[m].tmp == raw[m]
    {
      ScanStep(keys, raw, count, m);
    }
    PendingExactly(ks, raw, rows, count, i, raw[i], Left(ks[i].filter));
    ReplayScans(changes + [ScanOf(raw)], rows, count);
  }
}
