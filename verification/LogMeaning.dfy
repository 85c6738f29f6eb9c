/** What replay makes of any log, well bracketed or not, told by the positions of its records and
    without the state machine (src/adapters/storage/binary_file.rs:380-450). */
module LogMeaning {
  import opened Core
  import opened WalLog

  /** The BEGIN at `b` is the last marker before position `n`. */
  ghost predicate OpenAt(log: seq<Record>, b: nat, n: nat) {
    && b < n <= |log| && log[b].BeginTxn?
    && forall i :: b < i < n ==> log[i].Data?()
  }

  ghost predicate NoneOpen(log: seq<Record>, n: nat) {
    forall b: nat :: !OpenAt(log, b, n)
  }

  /** The record at `j` ends the bracket begun at `b`, as its own COMMIT. */
  ghost predicate Commits(log: seq<Record>, b: nat, j: nat) {
    j < |log| && OpenAt(log, b, j) && log[j] == CommitTxn(log[b].txn)
  }

  /** The data record at `k` takes effect when replay reads position `j`: at once outside a bracket,
      with the COMMIT that carries the number of the BEGIN inside one, and not at all otherwise. */
  ghost predicate EffectAt(log: seq<Record>, k: nat, j: nat) {
    && k <= j < |log| && log[k].Data?()
    && ((k == j && NoneOpen(log, k)) || exists b: nat :: b < k && Commits(log, b, j))
  }

  predicate About<V>(cs: seq<Change<V>>, k: nat, id: U64) {
    k < |cs| && !cs[k].Skip? && cs[k].id == id
  }

  predicate PutAt<V>(cs: seq<Change<V>>, k: nat, id: U64) {
    k < |cs| && cs[k].Put? && cs[k].id == id
  }

  /** The change at `k` about `id` takes effect at `j`. */
  ghost predicate Acts<V>(log: seq<Record>, cs: seq<Change<V>>, id: U64, k: nat, j: nat) {
    EffectAt(log, k, j) && About(cs, k, id)
  }

  /** The put at `k`, in effect at `j`, is undone neither by a drop in effect at `j` or later nor by
      a put in effect later or after it at `j`. */
  ghost predicate Stands<V>(log: seq<Record>, cs: seq<Change<V>>, id: U64, k: nat, j: nat) {
    && Acts(log, cs, id, k, j) && PutAt(cs, k, id)
    && forall k': nat, j': nat ::
         Acts(log, cs, id, k', j') ==> j' < j || (j' == j && PutAt(cs, k', id) && k' <= k)
  }

  /** `v` is the value of the put that stands, if there is one. */
  ghost predicate Told<V>(log: seq<Record>, cs: seq<Change<V>>, v: Option<V>, id: U64) {
    && (v.Some? ==> exists k: nat, j: nat :: Stands(log, cs, id, k, j))
    && forall k: nat, j: nat :: Stands(log, cs, id, k, j) ==> v == Some(cs[k].value)
  }

  /** A group of changes at one id: puts first, then drops. */
  function Grouped<V(==)>(v: Option<V>, group: seq<Change<V>>, id: U64): Option<V> {
    if Drop(id) in group then None else After(v, group, id)
  }

  // ---- One more record ----

  lemma EffectInit(log: seq<Record>, n: nat, k: nat, j: nat)
    requires j < n < |log|
    ensures EffectAt(log, k, j) <==> EffectAt(log[..n], k, j)
  {
    var init := log[..n];
    if k <= j {
      forall b: nat ensures OpenAt(log, b, k) <==> OpenAt(init, b, k) {
        OpenInit(log, n, b, k);
      }
      forall b: nat ensures Commits(log, b, j) <==> Commits(init, b, j) {
        OpenInit(log, n, b, j);
      }
    }
  }

  lemma OpenInit(log: seq<Record>, n: nat, b: nat, m: nat)
    requires m <= n <= |log|
    ensures OpenAt(log, b, m) <==> OpenAt(log[..n], b, m)
  {
    if b < m {
      assert forall i :: b <= i < m ==> log[i] == log[..n][i];
    }
  }

  lemma EffectInside(log: seq<Record>, k: nat, j: nat)
    requires EffectAt(log, k, j)
    ensures k <= j < |log|
  {
  }

  /** The records that take effect with the last one, at `n`, are those from `lo` up to `hi`. */
  ghost predicate GroupAt(log: seq<Record>, n: nat, lo: nat, hi: nat) {
    && |log| == n + 1 && lo <= hi <= |log|
    && forall k: nat :: EffectAt(log, k, n) <==> lo <= k < hi
  }

  lemma {:induction false} AfterNone<V>(v: Option<V>, group: seq<Change<V>>, id: U64)
    requires forall i: nat :: !About(group, i, id)
    ensures After(v, group, id) == v
    decreases |group|
  {
    if group != [] {
      var n := |group| - 1;
      assert !About(group, n, id);
      assert forall i: nat :: About(group[..n], i, id) ==> About(group, i, id);
      AfterNone(v, group[..n], id);
    }
  }

  lemma {:induction false} AfterPut<V>(v: Option<V>, group: seq<Change<V>>, id: U64) returns (k: nat)
    requires Drop(id) !in group && exists i: nat :: About(group, i, id)
    ensures PutAt(group, k, id) && After(v, group, id) == Some(group[k].value)
    ensures forall i: nat :: i > k ==> !About(group, i, id)
    decreases |group|
  {
    var n := |group| - 1;
    if About(group, n, id) {
      k := n;
    } else {
      assert forall i: nat :: About(group, i, id) ==> About(group[..n], i, id);
      k := AfterPut(v, group[..n], id);
    }
  }

  lemma ToldStep<V>(log: seq<Record>, cs: seq<Change<V>>, n: nat, lo: nat, hi: nat, v: Option<V>, id: U64)
    requires |cs| == |log| && GroupAt(log, n, lo, hi) && Told(log[..n], cs[..n], v, id)
    ensures Told(log, cs, Grouped(v, cs[lo..hi], id), id)
  {
    hide EffectAt, Told;
    var group := cs[lo..hi];
    if Drop(id) in group {
      DropWins(log, cs, n, lo, hi, id);
    } else if exists i: nat :: About(group, i, id) {
      var i := AfterPut(v, group, id);
      forall m: nat | lo + i < m < hi ensures !About(cs, m, id) {
        assert !About(group, m - lo, id);
      }
      PutWins(log, cs, n, lo, hi, id, lo + i);
    } else {
      AfterNone(v, group, id);
      forall m: nat | lo <= m < hi ensures !About(cs, m, id) {
        assert !About(group, m - lo, id);
      }
      NothingNew(log, cs, n, lo, hi, v, id);
    }
  }

  lemma DropWins<V>(log: seq<Record>, cs: seq<Change<V>>, n: nat, lo: nat, hi: nat, id: U64)
    requires |cs| == |log| && GroupAt(log, n, lo, hi) && Drop(id) in cs[lo..hi]
    ensures Told(log, cs, None, id)
  {
    hide EffectAt;
    var d: nat :| lo <= d < hi && cs[d] == Drop(id);
    assert Acts(log, cs, id, d, n) && !PutAt(cs, d, id);
    forall k: nat, j: nat ensures !Stands(log, cs, id, k, j) {
      if EffectAt(log, k, j) {
        EffectInside(log, k, j);
      }
    }
  }

  lemma PutWins<V>(log: seq<Record>, cs: seq<Change<V>>, n: nat, lo: nat, hi: nat, id: U64, k: nat)
    requires |cs| == |log| && GroupAt(log, n, lo, hi) && lo <= k < hi && Drop(id) !in cs[lo..hi]
    requires PutAt(cs, k, id) && forall i: nat :: k < i < hi ==> !About(cs, i, id)
    ensures Told(log, cs, Some(cs[k].value), id)
  {
    hide EffectAt;
    assert Acts(log, cs, id, k, n);
    forall k': nat, j': nat | Acts(log, cs, id, k', j')
      ensures j' < n || (j' == n && PutAt(cs, k', id) && k' <= k)
    {
      EffectInside(log, k', j');
      if j' == n {
        assert lo <= k' < hi && cs[lo..hi][k' - lo] == cs[k'];
      }
    }
    assert Stands(log, cs, id, k, n);
    forall k': nat, j': nat | Stands(log, cs, id, k', j') ensures k' == k {
      EffectInside(log, k', j');
      assert Acts(log, cs, id, k', j');
    }
  }

  lemma NothingNew<V>(log: seq<Record>, cs: seq<Change<V>>, n: nat, lo: nat, hi: nat, v: Option<V>, id: U64)
    requires |cs| == |log| && GroupAt(log, n, lo, hi) && forall i: nat :: lo <= i < hi ==> !About(cs, i, id)
    requires Told(log[..n], cs[..n], v, id)
    ensures Told(log, cs, v, id)
  {
    hide EffectAt, Stands;
    forall k: nat, j: nat ensures Stands(log, cs, id, k, j) <==> Stands(log[..n], cs[..n], id, k, j) {
      SameStands(log, cs, n, lo, hi, id, k, j);
    }
    forall k: nat, j: nat | Stands(log[..n], cs[..n], id, k, j) ensures k < n {
      StandsInside(log[..n], cs[..n], id, k, j);
    }
  }

  lemma StandsInside<V>(log: seq<Record>, cs: seq<Change<V>>, id: U64, k: nat, j: nat)
    requires Stands(log, cs, id, k, j)
    ensures k < |cs|
  {
  }

  lemma SameActs<V>(log: seq<Record>, cs: seq<Change<V>>, n: nat, lo: nat, hi: nat, id: U64, k: nat, j: nat)
    requires |cs| == |log| && GroupAt(log, n, lo, hi) && forall i: nat :: lo <= i < hi ==> !About(cs, i, id)
    ensures Acts(log, cs, id, k, j) <==> Acts(log[..n], cs[..n], id, k, j)
  {
    hide EffectAt;
    if EffectAt(log, k, j) {
      EffectInside(log, k, j);
    }
    if EffectAt(log[..n], k, j) {
      EffectInside(log[..n], k, j);
    }
    if j < n {
      EffectInit(log, n, k, j);
    }
  }

  lemma SameStands<V>(log: seq<Record>, cs: seq<Change<V>>, n: nat, lo: nat, hi: nat, id: U64, k: nat, j: nat)
    requires |cs| == |log| && GroupAt(log, n, lo, hi) && forall i: nat :: lo <= i < hi ==> !About(cs, i, id)
    ensures Stands(log, cs, id, k, j) <==> Stands(log[..n], cs[..n], id, k, j)
  {
    hide EffectAt;
    forall k': nat, j': nat
      ensures Acts(log, cs, id, k', j') <==> Acts(log[..n], cs[..n], id, k', j')
      ensures Acts(log, cs, id, k', j') ==> (PutAt(cs, k', id) <==> PutAt(cs[..n], k', id))
    {
      SameActs(log, cs, n, lo, hi, id, k', j');
    }
  }

  // ---- The whole log ----

  lemma OnlyOpen(log: seq<Record>, b: nat, c: nat, n: nat)
    requires OpenAt(log, b, n) && OpenAt(log, c, n)
    ensures b == c
  {
  }

  /** The buffer of an open bracket holds what came after the BEGIN that is the last marker. */
  ghost predicate OpenTold(log: seq<Record>, open: Option<Buffer>) {
    && (open.None? ==> NoneOpen(log, |log|))
    && (open.Some? ==> exists b: nat :: OpenWith(log, b, open.value))
  }

  ghost predicate OpenWith(log: seq<Record>, b: nat, buffer: Buffer) {
    && OpenAt(log, b, |log|) && AllData(log[b + 1..])
    && buffer == Buffered(EmptyBuffer(log[b].txn), log[b + 1..])
  }

  lemma {:induction false} ReplayOpen(log: seq<Record>)
    ensures OpenTold(log, Replay(log).open)
    decreases |log|
  {
    if log != [] {
      var n := |log| - 1;
      ReplayOpen(log[..n]);
      if log[n].BeginTxn? {
        assert log[n + 1..] == [];
        assert OpenWith(log, n, EmptyBuffer(log[n].txn));
      } else if log[n].Data?() {
        OpenGrows(log, n, Replay(log[..n]).open);
      }
    }
  }

  lemma OpenGrows(log: seq<Record>, n: nat, open: Option<Buffer>)
    requires |log| == n + 1 && log[n].Data?() && OpenTold(log[..n], open)
    ensures OpenTold(log, if open.Some? then Some(Push(open.value, log[n])) else None)
  {
    hide Push, Buffered;
    var init := log[..n];
    if open.Some? {
      var b: nat :| OpenWith(init, b, open.value);
      var rs := log[b + 1..];
      assert rs == init[b + 1..] + [log[n]];
      BufferedMore(EmptyBuffer(log[b].txn), init[b + 1..], log[n]);
      assert OpenWith(log, b, Push(open.value, log[n]));
    } else {
      forall b: nat ensures !OpenAt(log, b, |log|) {
        OpenInit(log, n, b, n);
        assert OpenAt(log, b, |log|) ==> b < n;
      }
    }
  }

  lemma BufferedMore(buffer: Buffer, rs: seq<Record>, r: Record)
    requires AllData(rs) && r.Data?()
    ensures AllData(rs + [r]) && Buffered(buffer, rs + [r]) == Push(Buffered(buffer, rs), r)
  {
    assert (rs + [r])[..|rs|] == rs;
  }

  lemma NoGroup(log: seq<Record>, n: nat)
    requires |log| == n + 1 && forall b: nat :: !Commits(log, b, n)
    requires log[n].Data?() ==> !NoneOpen(log, n)
    ensures GroupAt(log, n, 0, 0)
  {
  }

  lemma AloneGroup(log: seq<Record>, n: nat)
    requires |log| == n + 1 && log[n].Data?() && NoneOpen(log, n)
    ensures GroupAt(log, n, n, n + 1)
  {
  }

  lemma BracketGroup(log: seq<Record>, n: nat, b: nat)
    requires |log| == n + 1 && Commits(log, b, n)
    ensures GroupAt(log, n, b + 1, n)
  {
    forall c: nat | Commits(log, c, n) ensures c == b {
      OnlyOpen(log, b, c, n);
    }
  }

  lemma GroupedOne<V>(v: Option<V>, c: Change<V>, id: U64)
    ensures Grouped(v, [c], id)
            == if c.Skip? || c.id != id then v else if c.Put? then Some(c.value) else None
  {
    assert [c][..0] == [];
    assert After(v, [], id) == v;
    assert Drop(id) in [c] <==> c == Drop(id);
  }

  lemma ApplyGroup(g: Graph, r: Record, id: U64)
    requires r.Data?()
    ensures Lookup(Apply(g, r).nodes, id) == Grouped(Lookup(g.nodes, id), [NodeChange(r)], id)
    ensures Lookup(Apply(g, r).edges, id) == Grouped(Lookup(g.edges, id), [EdgeChange(r)], id)
  {
    GroupedOne(Lookup(g.nodes, id), NodeChange(r), id);
    GroupedOne(Lookup(g.edges, id), EdgeChange(r), id);
  }

  lemma CommitGroup(g: Graph, t: U64, rs: seq<Record>, id: U64)
    requires AllData(rs)
    ensures var g' := ApplyGrouped(g, Buffered(EmptyBuffer(t), rs));
            && Lookup(g'.nodes, id) == Grouped(Lookup(g.nodes, id), NodeChanges(rs), id)
            && Lookup(g'.edges, id) == Grouped(Lookup(g.edges, id), EdgeChanges(rs), id)
  {
    BufferedChanges(t, rs);
    MapGroup(g.nodes, NodeChanges(rs), id);
    MapGroup(g.edges, EdgeChanges(rs), id);
  }

  lemma MapGroup<V>(m: map<U64, V>, cs: seq<Change<V>>, id: U64)
    ensures Lookup(RemoveAll(PutAll(m, Puts(cs)), Drops(cs)), id) == Grouped(Lookup(m, id), cs, id)
  {
    DropsContent(cs, id);
    if Drop(id) !in cs {
      PutsAfter(m, cs, id);
    }
  }

  /** The records from `lo` up to `hi` are the group that makes `g'` of `g` with the last record. */
  ghost predicate Makes(log: seq<Record>, n: nat, lo: nat, hi: nat, g: Graph, g': Graph, id: U64) {
    && GroupAt(log, n, lo, hi) && lo <= hi <= |log|
    && Lookup(g'.nodes, id) == Grouped(Lookup(g.nodes, id), NodeChanges(log)[lo..hi], id)
    && Lookup(g'.edges, id) == Grouped(Lookup(g.edges, id), EdgeChanges(log)[lo..hi], id)
  }

  lemma AloneMakes(log: seq<Record>, n: nat, g: Graph, id: U64)
    requires |log| == n + 1 && log[n].Data?() && NoneOpen(log[..n], n)
    ensures Makes(log, n, n, n + 1, g, Apply(g, log[n]), id)
  {
    hide Apply, GroupAt, Grouped;
    forall b: nat ensures !OpenAt(log, b, n) {
      OpenInit(log, n, b, n);
    }
    AloneGroup(log, n);
    ApplyGroup(g, log[n], id);
    assert NodeChanges(log)[n..n + 1] == [NodeChange(log[n])] && EdgeChanges(log)[n..n + 1] == [EdgeChange(log[n])];
  }

  lemma CommitMakes(log: seq<Record>, n: nat, b: nat, buffer: Buffer, g: Graph, id: U64)
    requires |log| == n + 1 && OpenWith(log[..n], b, buffer) && log[n] == CommitTxn(buffer.txn)
    ensures Makes(log, n, b + 1, n, g, ApplyGrouped(g, buffer), id)
  {
    hide ApplyGrouped, Buffered, GroupAt, Grouped;
    var rs := log[..n][b + 1..];
    OpenInit(log, n, b, n);
    BufferedKeepsTxn(EmptyBuffer(log[b].txn), rs);
    BracketGroup(log, n, b);
    CommitGroup(g, log[b].txn, rs, id);
    assert NodeChanges(log)[b + 1..n] == NodeChanges(rs) && EdgeChanges(log)[b + 1..n] == EdgeChanges(rs);
  }

  lemma NothingMakes(log: seq<Record>, n: nat, open: Option<Buffer>, g: Graph, id: U64)
    requires |log| == n + 1 && OpenTold(log[..n], open)
    requires log[n].Data?() ==> open.Some?
    requires log[n].CommitTxn? ==> open.None? || open.value.txn != log[n].txn
    ensures Makes(log, n, 0, 0, g, g, id)
  {
    hide GroupAt, Grouped, OpenTold;
    NothingTaken(log, n, open);
    NoGroup(log, n);
    GroupedNone(Lookup(g.nodes, id), id);
    GroupedNone(Lookup(g.edges, id), id);
  }

  /** What the last record does: nothing, or the changes of a group. */
  lemma StepGroup(log: seq<Record>, n: nat, id: U64) returns (lo: nat, hi: nat)
    requires |log| == n + 1
    ensures Makes(log, n, lo, hi, Loaded(log[..n]), Loaded(log), id)
  {
    hide Apply, ApplyGrouped, Makes, OpenWith;
    var st := Replay(log[..n]);
    lo, hi := 0, 0;
    ReplayOpen(log[..n]);
    if log[n].Data?() && st.open.None? {
      AloneMakes(log, n, st.graph, id);
      lo, hi := n, n + 1;
    } else if log[n].CommitTxn? && st.open.Some? && st.open.value.txn == log[n].txn {
      var b: nat :| OpenWith(log[..n], b, st.open.value);
      CommitMakes(log, n, b, st.open.value, st.graph, id);
      lo, hi := b + 1, n;
    } else {
      NothingMakes(log, n, st.open, st.graph, id);
    }
  }

  lemma GroupedNone<V>(v: Option<V>, id: U64)
    ensures Grouped(v, [], id) == v
  {
  }

  lemma NothingTaken(log: seq<Record>, n: nat, open: Option<Buffer>)
    requires |log| == n + 1 && OpenTold(log[..n], open)
    requires log[n].Data?() ==> open.Some?
    requires log[n].CommitTxn? ==> open.None? || open.value.txn != log[n].txn
    ensures forall b: nat :: !Commits(log, b, n)
    ensures log[n].Data?() ==> !NoneOpen(log, n)
  {
    hide Buffered;
    forall b: nat ensures OpenAt(log, b, n) <==> OpenAt(log[..n], b, n) {
      OpenInit(log, n, b, n);
    }
    if open.Some? {
      var b: nat :| OpenWith(log[..n], b, open.value);
      BufferedKeepsTxn(EmptyBuffer(log[b].txn), log[..n][b + 1..]);
      assert OpenAt(log, b, n);
      forall c: nat | OpenAt(log, c, n) ensures c == b {
        OnlyOpen(log, b, c, n);
      }
    }
  }

  lemma NothingStands<V>(cs: seq<Change<V>>, id: U64)
    ensures forall k: nat, j: nat :: !Stands([], cs, id, k, j)
  {
  }

  /** Whatever the log, an id is live exactly when some put of it stands, with the value of that put. */
  lemma {:induction false} LoadedTold(log: seq<Record>, id: U64)
    ensures Told(log, NodeChanges(log), Lookup(Loaded(log).nodes, id), id)
    ensures Told(log, EdgeChanges(log), Lookup(Loaded(log).edges, id), id)
    decreases |log|
  {
    hide Stands, GroupAt, Grouped;
    if log == [] {
      assert Loaded([]) == EMPTY_GRAPH;
      NothingStands(NodeChanges(log), id);
      NothingStands(EdgeChanges(log), id);
    } else {
      var n := |log| - 1;
      LoadedTold(log[..n], id);
      var lo, hi := StepGroup(log, n, id);
      assert NodeChanges(log)[..n] == NodeChanges(log[..n]) && EdgeChanges(log)[..n] == EdgeChanges(log[..n]);
      ToldStep(log, NodeChanges(log), n, lo, hi, Lookup(Loaded(log[..n]).nodes, id), id);
      ToldStep(log, EdgeChanges(log), n, lo, hi, Lookup(Loaded(log[..n]).edges, id), id);
    }
  }
}
