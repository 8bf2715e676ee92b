/** Job ids: what commands get while they are sorted, and when ids are distinct afterwards. */
module JobIds {
  import opened ConfigMgr
  import opened Queues
  import opened UniqueIds
  import opened Wrappers

  predicate Eligible(s: Status) {
    s.StatusUnknown? || s.StatusNone? || s.StatusEnqueued?
  }

  /** What a command carries besides its account. */
  datatype Fields = Fields(status: Status, uniqueId: nat, refUniqueId: nat)

  type Snapshot = map<Transaction, Fields>

  ghost function Snap(cmds: seq<Transaction>): Snapshot
    reads cmds
  {
    map t | t in cmds :: Fields(t.status, t.uniqueId, t.refUniqueId)
  }

  /** The eligible ones of the first `k` commands. */
  ghost function Eligibles(cmds: seq<Transaction>, k: nat, snap: Snapshot): (ts: set<Transaction>)
    requires k <= |cmds| && forall t :: t in cmds ==> t in snap
  {
    if k == 0 then {}
    else if Eligible(snap[cmds[k - 1]].status) then Eligibles(cmds, k - 1, snap) + {cmds[k - 1]}
    else Eligibles(cmds, k - 1, snap)
  }

  // ---------- job ids ----------

  /** The counter of job ids, the number behind which the next one comes, and whether the counters they
      are drawn from have not gone negative. */
  datatype Counters = Counters(last: int, base: int, ready: bool)

  ghost function JobCounters(mgr: ConfigMgr): Counters
    reads mgr
  {
    var job, all := Counter(StoredIds(mgr.store), JOBID), Counter(StoredIds(mgr.store), "");
    Counters(job, if job == 0 then all else job, job >= 0 && all >= 0)
  }

  /** No call will fail, and nobody holds the lock of the counters. */
  ghost predicate Smooth(mgr: ConfigMgr)
    reads mgr
  {
    mgr.answers == [] && (MAIN, SHARED) !in mgr.locks
  }

  /** What becomes of a command's job id, of the counters and of the errors: a news id is the advanced
      counter, unless there was an error, which then is the id. */
  ghost predicate IdGiven(id: nat, id': nat, errs: seq<CInt>, errs': seq<CInt>, c: Counters, c': Counters) {
    && errs <= errs'
    && (c.ready ==> c'.ready && 0 <= c.last <= c'.last)
    && if id != 0 then id' == id && errs' == errs && c' == c
       else if errs' == errs then
         c.ready ==> c.last < c'.last && c'.last == c'.base == c.base + 1 && id' == U32(c'.last)
       else errs'[|errs|] < 0 && id' == U32(errs'[|errs|])
  }

  /** Gives the command a job id if it has none. */
  method AssignJobId(mgr: ConfigMgr, t: Transaction)
    modifies mgr, t`uniqueId
    ensures IdGiven(old(t.uniqueId), t.uniqueId, old(mgr.errors), mgr.errors, old(JobCounters(mgr)),
                    JobCounters(mgr))
    ensures old(t.uniqueId) != 0 ==> mgr.store == old(mgr.store)
    ensures old(Smooth(mgr)) ==> Smooth(mgr) && mgr.errors == old(mgr.errors)
    ensures old(t.uniqueId) == 0 && |old(mgr.answers)| > 0 && old(mgr.answers)[0] < 0 ==>
              && t.uniqueId == U32(old(mgr.answers)[0])
              && mgr.store == old(mgr.store) && mgr.answers == old(mgr.answers)[1..]
  {
    if t.uniqueId == 0 {
      ghost var db := StoredIds(mgr.store);
      if JobCounters(mgr).ready {
        StepCounters(db, JOBID, true, "");
      }
      var rv := GetNamedUniqueId(mgr, JOBID, true);
      t.uniqueId := U32(rv);
    }
  }

  /** A store that fails twice in the same way gives two commands one job id. */
  method FailingStoreDoublesIds(store: Store, derive: (string, nat) -> string) returns (first: nat, second: nat)
    ensures first == second == 0xFFFF_FFFB
  {
    var mgr := new ConfigMgr(store, [-5, -5], derive);
    var t := new Transaction(StatusNone, 1, 0);
    var u := new Transaction(StatusNone, 1, 0);
    AssignJobId(mgr, t);
    AssignJobId(mgr, u);
    first, second := t.uniqueId, u.uniqueId;
  }

  // ---------- the ids of many commands ----------

  /** The command had no id and was issued one. */
  ghost predicate Issued(before: Snapshot, taken: set<Transaction>, codes: map<Transaction, CInt>, t: Transaction) {
    t in taken && t in before && before[t].uniqueId == 0 && t !in codes
  }

  /** What the ids are while the counter went from `c0` to `c`: the commands in `codes` were refused one and
      have the error code instead; others in `taken` that had none got each one of its own that the counter
      passed; the rest keep what they had. */
  ghost predicate IdsGiven(before: Snapshot, snap: Snapshot, taken: set<Transaction>, codes: map<Transaction, CInt>,
                           c0: int, c: int)
  {
    && 0 <= c0 <= c && snap.Keys == before.Keys && codes.Keys <= taken <= before.Keys
    && (forall t :: t in before && (t !in taken || before[t].uniqueId != 0) ==>
          snap[t].uniqueId == before[t].uniqueId)
    && (forall t :: t in codes ==> before[t].uniqueId == 0 && codes[t] < 0 && snap[t].uniqueId == U32(codes[t]))
    && (forall t :: t in taken && Issued(before, taken, codes, t) ==> c0 < snap[t].uniqueId <= c)
    && (forall t, u :: t in taken && u in taken && Issued(before, taken, codes, t) && Issued(before, taken, codes, u)
                       && t != u ==>
          snap[t].uniqueId != snap[u].uniqueId)
  }

  /** Commands are refused ids exactly when there are new errors, and get these as codes. */
  ghost predicate Refused(codes: map<Transaction, CInt>, errs: seq<CInt>, errs': seq<CInt>) {
    && errs <= errs' && (codes == map[] <==> errs' == errs)
    && (forall t :: t in codes ==> codes[t] in errs'[|errs|..])
  }

  // ---------- when job ids are distinct ----------

  /** No two of the commands share an id; 0 is none. */
  ghost predicate IdsDiffer(snap: Snapshot, ts: set<Transaction>)
    requires ts <= snap.Keys
  {
    forall t, u :: t in ts && u in ts && t != u && snap[t].uniqueId != 0 ==> snap[t].uniqueId != snap[u].uniqueId
  }

  /** An id that one of the commands brought along was given to another one. */
  ghost predicate GivenAgain(before: Snapshot, snap: Snapshot, ts: set<Transaction>, taken: set<Transaction>)
    requires ts <= before.Keys && taken <= before.Keys == snap.Keys
  {
    exists t, u :: t in ts && u in taken && before[t].uniqueId != 0 && before[u].uniqueId == 0
                   && snap[u].uniqueId == before[t].uniqueId
  }

  ghost predicate CodesDiffer(codes: map<Transaction, CInt>) {
    forall t, u :: t in codes && u in codes && t != u ==> codes[t] != codes[u]
  }

  /** Exactly when the ids of any commands, among them all that were taken, are distinct: those brought along
      were, none of them was given again, and no two commands were refused one with the same code. */
  lemma IdsDistinctExactly(before: Snapshot, snap: Snapshot, ts: set<Transaction>, taken: set<Transaction>,
                           codes: map<Transaction, CInt>, c0: int, c: int)
    requires IdsGiven(before, snap, taken, codes, c0, c) && c < 0x8000_0000 && taken <= ts <= before.Keys
    ensures IdsDiffer(snap, ts)
       <==> IdsDiffer(before, ts) && !GivenAgain(before, snap, ts, taken) && CodesDiffer(codes)
  {
    forall t | t in codes ensures snap[t].uniqueId == codes[t] as int + 0x1_0000_0000 >= 0x8000_0000 {
      NegativeCode(codes[t]);
    }
    if IdsDiffer(before, ts) && !GivenAgain(before, snap, ts, taken) && CodesDiffer(codes) {
      forall t, u | t in ts && u in ts && t != u && snap[t].uniqueId != 0
        ensures snap[t].uniqueId != snap[u].uniqueId
      {
        TwoDiffer(before, snap, ts, taken, codes, c0, c, t, u);
      }
    } else if t, u :| t in codes && u in codes && t != u && codes[t] == codes[u] {
      assert snap[t].uniqueId == snap[u].uniqueId;
    }
  }

  lemma TwoDiffer(before: Snapshot, snap: Snapshot, ts: set<Transaction>, taken: set<Transaction>,
                  codes: map<Transaction, CInt>, c0: int, c: int, t: Transaction, u: Transaction)
    requires IdsGiven(before, snap, taken, codes, c0, c) && c < 0x8000_0000 && taken <= ts <= before.Keys
    requires forall t :: t in codes ==> snap[t].uniqueId == codes[t] as int + 0x1_0000_0000 >= 0x8000_0000
    requires IdsDiffer(before, ts) && !GivenAgain(before, snap, ts, taken) && CodesDiffer(codes)
    requires t in ts && u in ts && t != u && snap[t].uniqueId != 0
    ensures snap[t].uniqueId != snap[u].uniqueId
  {
    if before[t].uniqueId == 0 && before[u].uniqueId == 0 {
      assert t in codes || Issued(before, taken, codes, t);
      assert u in codes || u !in taken || Issued(before, taken, codes, u);
    }
  }

  /** From a good start, where ids differ and none is above the counter, all ids stay distinct but those of
      refused commands, and these are so exactly as far as their codes are. */
  lemma GoodStart(before: Snapshot, snap: Snapshot, taken: set<Transaction>, codes: map<Transaction, CInt>, c0: int,
                  c: int)
    requires IdsGiven(before, snap, taken, codes, c0, c) && c < 0x8000_0000
    requires IdsDiffer(before, before.Keys) && forall t :: t in before ==> before[t].uniqueId <= c0
    ensures forall t :: t in taken ==> snap[t].uniqueId != 0
    ensures IdsDiffer(snap, before.Keys - codes.Keys)
    ensures IdsDiffer(snap, before.Keys) <==> CodesDiffer(codes)
  {
    forall t | t in taken ensures snap[t].uniqueId != 0 {
      HasId(before, snap, taken, codes, c0, c, t);
    }
    var all := before.Keys;
    if GivenAgain(before, snap, all, taken) {
      var t, u :| t in all && u in taken && before[t].uniqueId != 0 && before[u].uniqueId == 0
        && snap[u].uniqueId == before[t].uniqueId;
      if u in codes {
        NegativeCode(codes[u]);
      } else {
        assert Issued(before, taken, codes, u);
      }
    }
    IdsDistinctExactly(before, snap, all, taken, codes, c0, c);
    NoneShared(before, snap, taken, codes, c0, c);
  }

  lemma NoneShared(before: Snapshot, snap: Snapshot, taken: set<Transaction>, codes: map<Transaction, CInt>, c0: int,
                   c: int)
    requires IdsGiven(before, snap, taken, codes, c0, c)
    requires IdsDiffer(before, before.Keys) && forall t :: t in before ==> before[t].uniqueId <= c0
    ensures IdsDiffer(snap, before.Keys - codes.Keys)
  {
    forall t | t in before && t !in codes
      ensures Issued(before, taken, codes, t) || snap[t].uniqueId == before[t].uniqueId
    {
    }
  }

  /** The commands without an id among the eligible ones of the first `k`, each once. */
  ghost function Fresh(cmds: seq<Transaction>, k: nat, snap: Snapshot): (ts: seq<Transaction>)
    requires k <= |cmds| && forall t :: t in cmds ==> t in snap
    ensures forall t :: t in ts ==> t in snap && t in Eligibles(cmds, k, snap) && snap[t].uniqueId == 0
    ensures forall t :: t in snap && t in Eligibles(cmds, k, snap) && snap[t].uniqueId == 0 ==> t in ts
    ensures forall i, j :: 0 <= i < j < |ts| ==> ts[i] != ts[j]
  {
    if k == 0 then []
    else
      var t, ts := cmds[k - 1], Fresh(cmds, k - 1, snap);
      if Eligible(snap[t].status) && snap[t].uniqueId == 0 && t !in ts then ts + [t] else ts
  }

  /** The commands without an id are numbered in their order from `b0` on. */
  ghost predicate Numbered(snap: Snapshot, news: seq<Transaction>, b0: int, c: Counters) {
    && c.base == b0 + |news| && (news != [] ==> c.base == c.last)
    && forall i :: 0 <= i < |news| ==> news[i] in snap && snap[news[i]].uniqueId == b0 + 1 + i
  }

  /** Where no error arose, this can be told beforehand: ids are distinct exactly when those brought along
      are and none of them is among the next numbers of the counter. */
  lemma IdsForetold(cmds: seq<Transaction>, n: nat, before: Snapshot, snap: Snapshot, taken: set<Transaction>,
                    b0: int, c0: int, c: Counters)
    requires n <= |cmds| && (forall t :: t in cmds ==> t in before) && taken == Eligibles(cmds, n, before)
    requires IdsGiven(before, snap, taken, map[], c0, c.last) && c.last < 0x8000_0000
    requires Numbered(snap, Fresh(cmds, n, before), b0, c)
    ensures IdsDiffer(snap, taken)
       <==> IdsDiffer(before, taken)
            && forall t :: t in taken && before[t].uniqueId != 0 ==>
                 !(b0 < before[t].uniqueId <= b0 + |Fresh(cmds, n, before)|)
  {
    IdsDistinctExactly(before, snap, taken, taken, map[], c0, c.last);
    var news := Fresh(cmds, n, before);
    if t :| t in taken && before[t].uniqueId != 0 && b0 < before[t].uniqueId <= b0 + |news| {
      var u := news[before[t].uniqueId - b0 - 1];
      assert u in news && snap[u].uniqueId == before[t].uniqueId;
    }
    if GivenAgain(before, snap, taken, taken) {
      var t, u :| t in taken && u in taken && before[t].uniqueId != 0 && before[u].uniqueId == 0
        && snap[u].uniqueId == before[t].uniqueId;
      assert u in news;
      var i :| 0 <= i < |news| && news[i] == u;
    }
  }

  lemma NegativeCode(code: CInt)
    requires code < 0
    ensures U32(code) == code as int + 0x1_0000_0000
  {
  }

  // ---------- one command after the other ----------

  /** The codes when one more command has got its id, or an error instead. */
  ghost function WithCode(codes: map<Transaction, CInt>, t: Transaction, errs: seq<CInt>, errs': seq<CInt>)
    : map<Transaction, CInt>
    requires errs <= errs'
  {
    if errs' == errs then codes else codes[t := errs'[|errs|]]
  }

  lemma KeptStep(before: Snapshot, snap: Snapshot, taken: set<Transaction>, codes: map<Transaction, CInt>, c0: int,
                 c: int, t: Transaction, f: Fields)
    requires IdsGiven(before, snap, taken, codes, c0, c) && t in snap
    requires f.uniqueId == snap[t].uniqueId && (t in taken || before[t].uniqueId != 0)
    ensures IdsGiven(before, snap[t := f], taken + {t}, codes, c0, c)
  {
    forall u | u in taken + {t} && Issued(before, taken + {t}, codes, u) ensures Issued(before, taken, codes, u) {
    }
  }

  lemma RefusedStep(before: Snapshot, snap: Snapshot, taken: set<Transaction>, codes: map<Transaction, CInt>, c0: int,
                    c: int, t: Transaction, f: Fields, code: CInt, c': int)
    requires IdsGiven(before, snap, taken, codes, c0, c) && t in snap && t !in taken && c <= c'
    requires before[t].uniqueId == 0 && code < 0 && f.uniqueId == U32(code)
    ensures IdsGiven(before, snap[t := f], taken + {t}, codes[t := code], c0, c')
  {
    forall u | u in taken + {t} && Issued(before, taken + {t}, codes[t := code], u)
      ensures u != t && Issued(before, taken, codes, u)
    {
    }
  }

  lemma IssuedStep(before: Snapshot, snap: Snapshot, taken: set<Transaction>, codes: map<Transaction, CInt>, c0: int,
                   c: int, t: Transaction, f: Fields, c': int)
    requires IdsGiven(before, snap, taken, codes, c0, c) && t in snap && t !in taken
    requires before[t].uniqueId == 0 && f.uniqueId == c' > c
    ensures IdsGiven(before, snap[t := f], taken + {t}, codes, c0, c')
  {
    forall u | u in taken + {t} && u != t && Issued(before, taken + {t}, codes, u)
      ensures Issued(before, taken, codes, u)
    {
    }
  }

  /** One more command has got its id; one that is in `taken` already has one. */
  lemma IdStep(before: Snapshot, snap: Snapshot, taken: set<Transaction>, codes: map<Transaction, CInt>, c0: int,
               t: Transaction, f: Fields, errs: seq<CInt>, errs': seq<CInt>, c: Counters, c': Counters)
    requires IdsGiven(before, snap, taken, codes, c0, c.last) && t in snap && c.ready && c'.last < 0x1_0000_0000
    requires IdGiven(snap[t].uniqueId, f.uniqueId, errs, errs', c, c')
    ensures IdsGiven(before, snap[t := f], taken + {t}, WithCode(codes, t, errs, errs'), c0, c'.last)
  {
    hide IdsGiven;
    OwnId(before, snap, taken, codes, c0, c.last, t);
    if snap[t].uniqueId != 0 {
      KeptStep(before, snap, taken, codes, c0, c.last, t, f);
    } else if errs' != errs {
      RefusedStep(before, snap, taken, codes, c0, c.last, t, f, errs'[|errs|], c'.last);
    } else {
      IssuedStep(before, snap, taken, codes, c0, c.last, t, f, c'.last);
    }
  }

  lemma OwnId(before: Snapshot, snap: Snapshot, taken: set<Transaction>, codes: map<Transaction, CInt>, c0: int,
              c: int, t: Transaction)
    requires IdsGiven(before, snap, taken, codes, c0, c) && t in snap
    ensures t in before && (t in taken ==> snap[t].uniqueId != 0)
    ensures t !in taken ==> snap[t].uniqueId == before[t].uniqueId
  {
    if t in taken {
      HasId(before, snap, taken, codes, c0, c, t);
    }
  }

  lemma HasId(before: Snapshot, snap: Snapshot, taken: set<Transaction>, codes: map<Transaction, CInt>, c0: int,
              c: int, t: Transaction)
    requires IdsGiven(before, snap, taken, codes, c0, c) && t in taken
    ensures snap[t].uniqueId != 0
  {
    if t in codes {
      NegativeCode(codes[t]);
    } else if before[t].uniqueId == 0 {
      assert Issued(before, taken, codes, t);
    }
  }

  lemma NumberStep(before: Snapshot, snap: Snapshot, taken: set<Transaction>, c0: int, b0: int, news: seq<Transaction>,
                   t: Transaction, f: Fields, errs: seq<CInt>, c: Counters, c': Counters, news': seq<Transaction>)
    requires IdsGiven(before, snap, taken, map[], c0, c.last) && Numbered(snap, news, b0, c) && t in snap && c.ready
    requires IdGiven(snap[t].uniqueId, f.uniqueId, errs, errs, c, c') && c'.last < 0x1_0000_0000
    requires forall u :: u in news <==> u in taken && before[u].uniqueId == 0
    requires news' == if before[t].uniqueId == 0 && t !in news then news + [t] else news
    ensures Numbered(snap[t := f], news', b0, c')
  {
    if t in taken {
      HasId(before, snap, taken, map[], c0, c.last, t);
    }
    forall i | 0 <= i < |news'| ensures news'[i] in snap && snap[t := f][news'[i]].uniqueId == b0 + 1 + i {
      if i < |news| && news[i] == t {
        assert t in taken;
      }
    }
  }

  lemma CodesGrow(codes: map<Transaction, CInt>, t: Transaction, errs0: seq<CInt>, errs: seq<CInt>, errs': seq<CInt>,
                  codes': map<Transaction, CInt>)
    requires Refused(codes, errs0, errs) && errs <= errs' && codes' == WithCode(codes, t, errs, errs')
    ensures Refused(codes', errs0, errs')
  {
    if errs' != errs {
      assert t in codes';
      assert errs'[|errs0|..][|errs| - |errs0|] == errs'[|errs|];
      forall u | u in codes' ensures codes'[u] in errs'[|errs0|..] {
        if u != t {
          var k :| 0 <= k < |errs[|errs0|..]| && errs[|errs0|..][k] == codes[u];
          assert errs'[|errs0|..][k] == codes[u];
        }
      }
    }
  }

  /** Where the ids stand after `k` commands, when the counters began at `c0` and the errors were `errs`. */
  ghost predicate IdsStand(cmds: seq<Transaction>, k: nat, before: Snapshot, snap: Snapshot, taken: set<Transaction>,
                           codes: map<Transaction, CInt>, errs: seq<CInt>, errs': seq<CInt>, c0: Counters, c: Counters)
  {
    && k <= |cmds| && (forall t :: t in cmds ==> t in before)
    && Refused(codes, errs, errs')
    && (c0.ready ==> c.ready && c.last >= c0.last)
    && (c0.ready && c.last < 0x1_0000_0000 ==>
          && IdsGiven(before, snap, taken, codes, c0.last, c.last)
          && (errs' == errs ==> Numbered(snap, Fresh(cmds, k, before), c0.base, c)))
  }

  lemma StandStep(cmds: seq<Transaction>, k: nat, before: Snapshot, snap: Snapshot, taken: set<Transaction>,
                  codes: map<Transaction, CInt>, errs0: seq<CInt>, errs: seq<CInt>, c0: Counters, c: Counters,
                  f: Fields, errs': seq<CInt>, c': Counters)
    requires IdsStand(cmds, k, before, snap, taken, codes, errs0, errs, c0, c) && k < |cmds| && cmds[k] in snap
    requires taken == Eligibles(cmds, k, before) && Eligible(before[cmds[k]].status)
    requires IdGiven(snap[cmds[k]].uniqueId, f.uniqueId, errs, errs', c, c')
    ensures IdsStand(cmds, k + 1, before, snap[cmds[k] := f], taken + {cmds[k]},
                     WithCode(codes, cmds[k], errs, errs'), errs0, errs', c0, c')
  {
    var t := cmds[k];
    CodesGrow(codes, t, errs0, errs, errs', WithCode(codes, t, errs, errs'));
    if c0.ready && c'.last < 0x1_0000_0000 {
      IdStep(before, snap, taken, codes, c0.last, t, f, errs, errs', c, c');
      if errs' == errs0 {
        NumberStep(before, snap, taken, c0.last, c0.base, Fresh(cmds, k, before), t, f, errs, c, c',
                   Fresh(cmds, k + 1, before));
      }
    }
  }

  lemma StandIdle(cmds: seq<Transaction>, k: nat, before: Snapshot, snap: Snapshot, taken: set<Transaction>,
                  codes: map<Transaction, CInt>, errs0: seq<CInt>, errs: seq<CInt>, c0: Counters, c: Counters)
    requires IdsStand(cmds, k, before, snap, taken, codes, errs0, errs, c0, c) && k < |cmds|
    requires !Eligible(before[cmds[k]].status)
    ensures IdsStand(cmds, k + 1, before, snap, taken, codes, errs0, errs, c0, c)
  {
    assert Fresh(cmds, k + 1, before) == Fresh(cmds, k, before);
  }

  // ---------- all commands ----------

  /** All that is known of the ids when commands were sorted, the first `n` of them without a stop: who was
      refused one, what the others have, that no error means numbers in a row, and when they are distinct. */
  ghost predicate IdsSorted(cmds: seq<Transaction>, n: nat, before: Snapshot, snap: Snapshot,
                            taken: set<Transaction>, codes: map<Transaction, CInt>, errs: seq<CInt>,
                            errs': seq<CInt>, c0: Counters, c: Counters)
  {
    && IdsStand(cmds, n, before, snap, taken, codes, errs, errs', c0, c)
    && (c0.ready && c.last < 0x8000_0000 ==>
          && taken <= before.Keys == snap.Keys
          && (IdsDiffer(snap, taken) <==>
                IdsDiffer(before, taken) && !GivenAgain(before, snap, taken, taken) && CodesDiffer(codes))
          && (errs' == errs ==>
                (IdsDiffer(snap, taken) <==>
                   IdsDiffer(before, taken)
                   && forall t :: t in taken && before[t].uniqueId != 0 ==>
                        !(c0.base < before[t].uniqueId <= c0.base + |Fresh(cmds, n, before)|))))
  }

  lemma AllSorted(cmds: seq<Transaction>, n: nat, before: Snapshot, snap: Snapshot, taken: set<Transaction>,
                  codes: map<Transaction, CInt>, errs: seq<CInt>, errs': seq<CInt>, c0: Counters, c: Counters)
    requires IdsStand(cmds, n, before, snap, taken, codes, errs, errs', c0, c) && taken == Eligibles(cmds, n, before)
    ensures IdsSorted(cmds, n, before, snap, taken, codes, errs, errs', c0, c)
  {
    if c0.ready && c.last < 0x8000_0000 {
      IdsDistinctExactly(before, snap, taken, taken, codes, c0.last, c.last);
      if errs' == errs {
        IdsForetold(cmds, n, before, snap, taken, c0.base, c0.last, c);
      }
    }
  }
}
