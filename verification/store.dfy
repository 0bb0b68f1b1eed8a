/**
  The revision store (router/internal/store/store.go:44-57, 142-246) as a bounded window on an
  append-only log. Configurations are compared as their stored form; whether a file write succeeds
  is an input.
 */
module Store {
  import opened Wrappers
  import opened Text

  const MAX_REVISIONS := 64

  datatype Meta = Meta(rev: int, author: string, message: string)

  // One saved configuration; the log's i-th entry is revision i + 1.
  datatype Entry<C> = Entry(config: C, author: string, message: string)

  // ---- the log ----

  function Kept<C>(log: seq<Entry<C>>): nat { if |log| < MAX_REVISIONS then |log| else MAX_REVISIONS }

  predicate Retained<C>(log: seq<Entry<C>>, rev: int) { |log| - Kept(log) < rev <= |log| }

  function MetaAt<C>(log: seq<Entry<C>>, rev: int): Meta
    requires 1 <= rev <= |log|
  {
    Meta(rev, log[rev - 1].author, log[rev - 1].message)
  }

  function Newest<C>(log: seq<Entry<C>>, n: nat): (metas: seq<Meta>)
    requires n <= |log|
    ensures |metas| == n && forall k :: 0 <= k < n ==> metas[k] == MetaAt(log, |log| - k)
  {
    if n == 0 then [] else Newest(log, n - 1) + [MetaAt(log, |log| - (n - 1))]
  }

  function NewestData<C>(log: seq<Entry<C>>, n: nat): (data: map<int, C>)
    requires n <= |log|
    ensures forall rev :: rev in data <==> |log| - n < rev <= |log|
    ensures forall rev :: rev in data ==> data[rev] == log[rev - 1].config
  {
    if n == 0 then map[] else NewestData(log, n - 1)[|log| - (n - 1) := log[|log| - n].config]
  }

  /** The index kept in memory: newest first. */
  function Index<C>(log: seq<Entry<C>>): seq<Meta> { Newest(log, Kept(log)) }

  function Data<C>(log: seq<Entry<C>>): map<int, C> { NewestData(log, Kept(log)) }

  function Head<C>(log: seq<Entry<C>>): C
    requires log != []
  {
    log[|log| - 1].config
  }

  /** What saving does to the log: nothing if the configuration is already the newest or its file cannot be written. */
  function Saved<C(==)>(log: seq<Entry<C>>, e: Entry<C>, written: bool): seq<Entry<C>>
    requires log != []
  {
    if e.config == Head(log) || !written then log else log + [e]
  }

  predicate Listed(metas: seq<Meta>, rev: int) { exists k :: 0 <= k < |metas| && metas[k].rev == rev }

  lemma ListedIsRetained<C>(log: seq<Entry<C>>, rev: int)
    ensures Listed(Index(log), rev) <==> Retained(log, rev)
  {
    if Retained(log, rev) {
      var k := |log| - rev;
      assert Index(log)[k] == MetaAt(log, |log| - k);
    }
  }

  /** Numbers are consecutive, newest first, and end at the oldest revision whose data is kept. */
  lemma IndexIsNewest<C>(log: seq<Entry<C>>)
    requires log != []
    ensures |Index(log)| == (if |log| < 64 then |log| else 64)
    ensures Index(log)[0].rev == |log| && Data(log)[|log|] == log[|log| - 1].config
    ensures forall k :: 0 <= k < |Index(log)| ==>
      Index(log)[k].author == log[|log| - 1 - k].author && Index(log)[k].message == log[|log| - 1 - k].message
    ensures forall k :: 0 < k < |Index(log)| ==> Index(log)[k].rev == Index(log)[k - 1].rev - 1
    ensures forall rev :: rev in Data(log) <==> Listed(Index(log), rev)
  {
    forall rev ensures Listed(Index(log), rev) <==> Retained(log, rev) { ListedIsRetained(log, rev); }
    forall k | 0 < k < |Index(log)| ensures Index(log)[k].rev == Index(log)[k - 1].rev - 1 {
      assert Index(log)[k] == MetaAt(log, |log| - k) && Index(log)[k - 1] == MetaAt(log, |log| - (k - 1));
    }
  }

  lemma IndexAppend<C>(log: seq<Entry<C>>, e: Entry<C>)
    ensures var longer := [Meta(|log| + 1, e.author, e.message)] + Index(log);
      Index(log + [e]) == if |longer| > MAX_REVISIONS then longer[..MAX_REVISIONS] else longer
  {
    var longer := [Meta(|log| + 1, e.author, e.message)] + Index(log);
    forall k | 0 <= k < Kept(log + [e]) ensures Index(log + [e])[k] == longer[k] {
      if k > 0 { assert MetaAt(log + [e], |log| + 1 - k) == MetaAt(log, |log| - (k - 1)); }
    }
  }

  lemma DataAppend<C>(log: seq<Entry<C>>, e: Entry<C>)
    ensures Data(log + [e])
      == if Kept(log) == MAX_REVISIONS then Data(log)[|log| + 1 := e.config] - {|log| - MAX_REVISIONS + 1}
         else Data(log)[|log| + 1 := e.config]
  {
    forall rev | Retained(log + [e], rev) && rev <= |log| ensures (log + [e])[rev - 1] == log[rev - 1] {}
  }

  function RestoredFrom(rev: int, message: string): string {
    "restored from revision " + Decimal(rev) + " (" + message + ")"
  }

  class Store<C(==)> {
    var active: C
    var revs: seq<Meta>
    var revData: map<int, C>
    ghost var log: seq<Entry<C>>

    /** The store is the window of its log. */
    ghost predicate Valid()
      reads this
    {
      && log != []
      && active == Head(log)
      && revs == Index(log)
      && revData == Data(log)
    }

    constructor (initial: C)
      ensures Valid() && log == [Entry(initial, "system", "initial configuration")]
    {
      active := initial;
      revs := [Meta(1, "system", "initial configuration")];
      revData := map[1 := initial];
      log := [Entry(initial, "system", "initial configuration")];
      new;
      assert revs == Index(log);
      assert revData == Data(log);
    }

    method AppendRevision(rev: int, author: string, message: string, c: C)
      requires Valid() && rev == |log| + 1
      modifies this`revs, this`revData, this`log
      ensures log == old(log) + [Entry(c, author, message)] && revs == Index(log) && revData == Data(log)
    {
      ghost var before := log;
      log := log + [Entry(c, author, message)];
      IndexAppend(before, Entry(c, author, message));
      DataAppend(before, Entry(c, author, message));
      revData := revData[rev := c];
      revs := [Meta(rev, author, message)] + revs;
      ghost var longer, added := revs, revData;
      while |revs| > MAX_REVISIONS
        invariant Kept(log) <= |revs| <= Kept(before) + 1
        invariant revs == longer[..|revs|]
        invariant revData == if |revs| == |longer| then added else added - {longer[|revs|].rev}
        invariant log == before + [Entry(c, author, message)]
      {
        var oldest := revs[|revs| - 1];
        revs := revs[..|revs| - 1];
        revData := revData - {oldest.rev};
      }
    }

    /**
      Identical configurations add nothing; a failed revision write changes nothing; a failed write of
      the active file is reported late.
     */
    method Save(c: C, author: string, message: string, revWritten: bool, activeWritten: bool) returns (ok: bool)
      requires Valid()
      modifies this
      ensures Valid() && log == Saved(old(log), Entry(c, author, message), revWritten)
      ensures ok == (c == old(active) || (revWritten && activeWritten))
    {
      if c == active { return true; }
      var next := 1;
      if |revs| > 0 { next := revs[0].rev + 1; }
      if !revWritten { return false; }
      AppendRevision(next, author, message, c);
      active := c;
      ok := activeWritten;
    }

    method Revision(rev: int) returns (found: Option<(C, Meta)>)
      requires Valid()
      ensures found == if Retained(log, rev) then Some((log[rev - 1].config, MetaAt(log, rev))) else None
    {
      var meta := None;
      for i := 0 to |revs|
        invariant meta.None? <==> forall k :: 0 <= k < i ==> revs[k].rev != rev
        invariant meta.Some? ==> Retained(log, rev) && meta.value == MetaAt(log, rev)
      {
        if revs[i].rev == rev { meta := Some(revs[i]); }
      }
      ListedIsRetained(log, rev);
      if meta.None? { return None; }
      if rev !in revData { return None; }
      found := Some((revData[rev], meta.value));
    }

    /** A retained revision becomes the newest again. */
    method Restore(rev: int, author: string, revWritten: bool, activeWritten: bool) returns (ok: bool)
      requires Valid()
      modifies this
      ensures Valid() && old(log) <= log
      ensures !Retained(old(log), rev) ==> !ok && log == old(log)
      ensures Retained(old(log), rev) ==>
        && log == Saved(old(log), Entry(old(log)[rev - 1].config, author, RestoredFrom(rev, old(log)[rev - 1].message)),
          revWritten)
        && (ok ==> active == old(log)[rev - 1].config)
    {
      var found := Revision(rev);
      if found.None? { return false; }
      ok := Save(found.value.0, author, RestoredFrom(rev, found.value.1.message), revWritten, activeWritten);
    }
  }
}
