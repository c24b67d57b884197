/** The playlist scraper: after yt-dlp has downloaded a playlist with its
    `.info.json` files, build one record per video and merge the records
    into `meta.json`, skipping videos whose `youtubeId` is already there. */
module PlaylistScraper {
  import opened Json
  import opened Wrappers
  import Text
  import YouTube

  const InfoSuffix := ".info.json"

  // ---------------------------------------------------------------------
  // Selecting the info files
  // ---------------------------------------------------------------------

  /** `a` is `b` with some elements left out, the rest in the same order. */
  predicate Subsequence<T(==)>(a: seq<T>, b: seq<T>)
    decreases |b|
  {
    if a == [] then true
    else if b == [] then false
    else (a[0] == b[0] && Subsequence(a[1..], b[1..])) || Subsequence(a, b[1..])
  }

  /** The names in the listing that end in ".info.json", in listing order,
      each as often as the listing holds it. */
  function InfoJsonFiles(files: seq<string>): (r: seq<string>)
    ensures forall i :: 0 <= i < |r| ==> Text.EndsWith(r[i], InfoSuffix)
    ensures forall i :: 0 <= i < |files| && Text.EndsWith(files[i], InfoSuffix) ==> files[i] in r
    ensures Subsequence(r, files)
  {
    if files == [] then []
    else
      var rest := InfoJsonFiles(files[1..]);
      assert forall i :: 1 <= i < |files| ==> files[i] == files[1..][i - 1];
      if Text.EndsWith(files[0], InfoSuffix) then [files[0]] + rest else rest
  }

  /** Each kept name occurs as often as in the listing. */
  lemma {:induction false} InfoJsonFilesCounts(files: seq<string>)
    ensures forall f :: multiset(InfoJsonFiles(files))[f]
                     == if Text.EndsWith(f, InfoSuffix) then multiset(files)[f] else 0
  {
    if files != [] {
      InfoJsonFilesCounts(files[1..]);
      assert files == [files[0]] + files[1..];
    }
  }

  /** Filtering twice is filtering once. */
  lemma {:induction false} InfoJsonFilesIdempotent(files: seq<string>)
    ensures InfoJsonFiles(InfoJsonFiles(files)) == InfoJsonFiles(files)
  {
    if files != [] {
      InfoJsonFilesIdempotent(files[1..]);
      var rest := InfoJsonFiles(files[1..]);
      if Text.EndsWith(files[0], InfoSuffix) {
        assert ([files[0]] + rest)[1..] == rest;
      }
    }
  }

  // ---------------------------------------------------------------------
  // New records
  // ---------------------------------------------------------------------

  /** The record built from one parsed `.info.json` object. */
  datatype Meta = Meta(youtubeId: Value, title: Value, poster: string, channel: string)

  function MetaOf(data: Value, channel: string): Meta
    requires !Nullish(data)
  {
    Meta(Get(data, "id"), Get(data, "title"),
         YouTube.HqPoster(Interpolate(Get(data, "id"))), channel)
  }

  /** The records for the parsed info files, in file order. `parsed[i]` is
      the outcome of parsing the i-th file (`None` when `JSON.parse` throws).
      A parse failure, or a file holding `null`, aborts the whole run. */
  function NewMetas(parsed: seq<Option<Value>>, channel: string): (r: Option<seq<Meta>>)
    ensures r.None? <==> exists i :: 0 <= i < |parsed| && (parsed[i].None? || Nullish(parsed[i].value))
    ensures r.Some? ==> |r.value| == |parsed|
    ensures r.Some? ==> forall i :: 0 <= i < |parsed| ==>
      && parsed[i].Some? && !Nullish(parsed[i].value)
      && r.value[i].youtubeId == Get(parsed[i].value, "id")
      && r.value[i].title == Get(parsed[i].value, "title")
      && r.value[i].poster == YouTube.HqPoster(Interpolate(r.value[i].youtubeId))
      && r.value[i].channel == channel
  {
    if parsed == [] then Some([])
    else if parsed[0].None? || Nullish(parsed[0].value) then None
    else
      match NewMetas(parsed[1..], channel)
      case None => None
      case Some(rest) => Some([MetaOf(parsed[0].value, channel)] + rest)
  }

  // ---------------------------------------------------------------------
  // Merging
  // ---------------------------------------------------------------------

  /** A record as the object pushed onto `combined`. */
  function MetaJson(m: Meta): (v: Value)
    ensures v.Obj? && Truthy(v) && Get(v, "youtubeId") == m.youtubeId
  {
    Obj(map["youtubeId" := m.youtubeId, "title" := m.title,
            "poster" := Str(m.poster), "channel" := Str(m.channel)])
  }

  predicate NoNulls(c: seq<Value>) {
    forall i :: 0 <= i < |c| ==> !Nullish(c[i])
  }

  /** Every entry is truthy, as the objects `meta.json` normally holds are. */
  predicate AllTruthy(c: seq<Value>) {
    forall i :: 0 <= i < |c| ==> Truthy(c[i])
  }

  /** The test applied to each entry's `youtubeId`: strict equality with the
      record's id. */
  function SameKey(id: Value): Value -> bool {
    k => StrictEquals(k, id)
  }

  /** One step of the merge: look up the first entry whose `youtubeId` is
      `===` to the record's, and push the record unless that lookup gives a
      truthy entry. A falsy hit (`0`, `false`, `""`) is pushed past, because
      the program negates the lookup's result. A lookup that reaches a `null`
      entry first throws (`None`). */
  function Step(combined: seq<Value>, m: Meta): Option<seq<Value>> {
    match Find(combined, "youtubeId", SameKey(m.youtubeId), 0)
    case Throw => None
    case Hit(i) => if Truthy(combined[i]) then Some(combined) else Some(combined + [MetaJson(m)])
    case Miss => Some(combined + [MetaJson(m)])
  }

  /** The merged list: starting from `existing`, each new record in turn
      goes through `Step`. */
  function Merge(existing: seq<Value>, metas: seq<Meta>): (r: Option<seq<Value>>)
    ensures NoNulls(existing) ==> r.Some? && NoNulls(r.value)
    ensures r.Some? ==> |existing| <= |r.value| <= |existing| + |metas|
    ensures r.Some? ==> r.value[..|existing|] == existing
    ensures r.Some? ==> forall i :: |existing| <= i < |r.value| ==> r.value[i].Obj?
    decreases |metas|
  {
    if metas == [] then Some(existing)
    else
      var last := metas[|metas| - 1];
      match Merge(existing, metas[..|metas| - 1])
      case None => None
      case Some(c) =>
        var s := Step(c, last);
        assert NoNulls(c) ==> s.Some? by {
          if NoNulls(c) { FindNoNulls(c, "youtubeId", SameKey(last.youtubeId)); }
        }
        assert s.Some? ==> s.value == c || s.value == c + [MetaJson(last)];
        s
  }

  /** With a `null` in `existing`, every lookup either throws or stops at an
      entry before that `null`. So the merge writes nothing, or adds only
      records without an id (the ones a falsy entry's `undefined` key
      matches). */
  lemma {:induction false} MergeAtNullAddsNoIds(existing: seq<Value>, metas: seq<Meta>)
    requires !NoNulls(existing)
    ensures Merge(existing, metas).Some? ==>
      forall i :: |existing| <= i < |Merge(existing, metas).value| ==>
        Get(Merge(existing, metas).value[i], "youtubeId") == Undefined
    decreases |metas|
  {
    if metas != [] {
      var n := |metas| - 1;
      var m := metas[n];
      MergeAtNullAddsNoIds(existing, metas[..n]);
      var r := Merge(existing, metas[..n]);
      if r.Some? {
        var c := r.value;
        var t :| 0 <= t < |existing| && Nullish(existing[t]);
        assert c[t] == existing[t];
        StepAtNull(c, m, t);
        assert Merge(existing, metas) == Step(c, m);
        if Step(c, m) == Some(c + [MetaJson(m)]) {
          assert (c + [MetaJson(m)])[|c|] == MetaJson(m);
        }
      }
    }
  }

  /** With a `null` in `existing` and no falsy entry, the merge writes
      nothing or leaves the list as it was. */
  lemma {:induction false} MergeAtNullUnchanged(existing: seq<Value>, metas: seq<Meta>)
    requires !NoNulls(existing)
    requires forall i :: 0 <= i < |existing| && !Nullish(existing[i]) ==> Truthy(existing[i])
    ensures Merge(existing, metas).None? || Merge(existing, metas) == Some(existing)
    decreases |metas|
  {
    if metas != [] {
      var n := |metas| - 1;
      MergeAtNullUnchanged(existing, metas[..n]);
      if Merge(existing, metas[..n]).Some? {
        var t :| 0 <= t < |existing| && Nullish(existing[t]);
        StepAtNull(existing, metas[n], t);
      }
    }
  }

  /** One step on a list with a `null` at `t`: the lookup throws or stops at
      an entry before `t`, and it pushes only past a falsy entry, whose key
      is `undefined`. */
  lemma StepAtNull(c: seq<Value>, m: Meta, t: nat)
    requires t < |c| && Nullish(c[t])
    ensures Step(c, m).Some? ==>
      || Step(c, m) == Some(c)
      || (Step(c, m) == Some(c + [MetaJson(m)]) && m.youtubeId == Undefined)
    ensures (forall i :: 0 <= i < t && !Nullish(c[i]) ==> Truthy(c[i])) ==>
      Step(c, m).None? || Step(c, m) == Some(c)
  {
    var found := Find(c, "youtubeId", SameKey(m.youtubeId), 0);
    if found.Hit? {
      var h := found.index;
      assert h < t;
      if !Truthy(c[h]) {
        assert Get(c[h], "youtubeId") == Undefined;
      }
    }
  }

  /** The key an entry is deduplicated on. */
  function KeyOf(e: Value): Value
    requires !Nullish(e)
  {
    Get(e, "youtubeId")
  }

  /** `existing[i]` is the first entry whose key is `===` to `id`. */
  predicate FirstKeyMatch(existing: seq<Value>, id: Value, i: int)
    requires NoNulls(existing)
  {
    && 0 <= i < |existing|
    && StrictEquals(KeyOf(existing[i]), id)
    && forall h :: 0 <= h < i ==> !StrictEquals(KeyOf(existing[h]), id)
  }

  /** Independent description of which records the merge appends: the k-th
      record is pushed when the first entry of `existing` with a `===` key
      is falsy, or when no entry of `existing` and no earlier record has a
      key `===` to its id. */
  predicate Fresh(existing: seq<Value>, metas: seq<Meta>, k: nat)
    requires NoNulls(existing) && k < |metas|
  {
    var id := metas[k].youtubeId;
    || (exists i :: 0 <= i < |existing| && FirstKeyMatch(existing, id, i) && !Truthy(existing[i]))
    || (&& (forall i :: 0 <= i < |existing| ==> !StrictEquals(KeyOf(existing[i]), id))
        && (forall j :: 0 <= j < k ==> !StrictEquals(metas[j].youtubeId, id)))
  }

  /** The fresh records, in their original order, as pushed. */
  function Appended(existing: seq<Value>, metas: seq<Meta>): seq<Value>
    requires NoNulls(existing)
  {
    if metas == [] then []
    else
      Appended(existing, metas[..|metas| - 1])
        + (if Fresh(existing, metas, |metas| - 1) then [MetaJson(metas[|metas| - 1])] else [])
  }

  /** The `youtubeId` of each entry, in order. */
  function Keys(c: seq<Value>): seq<Value>
    requires NoNulls(c)
  {
    seq(|c|, i requires 0 <= i < |c| => KeyOf(c[i]))
  }

  /** Every record's key is held by some entry of the merged list. */
  predicate Covers(c: seq<Value>, metas: seq<Meta>)
    requires NoNulls(c)
  {
    forall j :: 0 <= j < |metas| ==> metas[j].youtubeId in Keys(c)
  }

  /** The merge keeps `existing` and pushes exactly the fresh records, and
      afterwards every record's `youtubeId` occurs in the result. */
  lemma {:induction false} MergeAppendsFresh(existing: seq<Value>, metas: seq<Meta>)
    requires NoNulls(existing)
    ensures Merge(existing, metas) == Some(existing + Appended(existing, metas))
    ensures Covers(existing + Appended(existing, metas), metas)
    decreases |metas|
  {
    if metas == [] {
      assert existing + Appended(existing, metas) == existing;
    } else {
      var n := |metas| - 1;
      var init, m := metas[..n], metas[n];
      MergeAppendsFresh(existing, init);
      var c := existing + Appended(existing, init);
      assert NoNulls(c) by { assert Merge(existing, init) == Some(c); }
      StepIffFresh(existing, metas);
      var r := existing + Appended(existing, metas);
      assert Merge(existing, metas) == Step(c, m);
      if Fresh(existing, metas, n) {
        assert r == c + [MetaJson(m)];
      } else {
        assert r == c;
      }
      CoversStep(existing, metas);
    }
  }

  /** The step for the last record pushes it exactly when it is fresh, given
      that the earlier records have been merged. */
  lemma StepIffFresh(existing: seq<Value>, metas: seq<Meta>)
    requires NoNulls(existing) && |metas| > 0
    requires NoNulls(existing + Appended(existing, metas[..|metas| - 1]))
    requires Covers(existing + Appended(existing, metas[..|metas| - 1]), metas[..|metas| - 1])
    ensures var c := existing + Appended(existing, metas[..|metas| - 1]);
      var m := metas[|metas| - 1];
      Step(c, m) == if Fresh(existing, metas, |metas| - 1) then Some(c + [MetaJson(m)]) else Some(c)
  {
    var n := |metas| - 1;
    var init := metas[..n];
    var c := existing + Appended(existing, init);
    assert c[..|existing|] == existing;
    var found := Find(c, "youtubeId", SameKey(metas[n].youtubeId), 0);
    if found.Hit? && found.index >= |existing| {
      var j := AppendedSource(existing, init, found.index - |existing|);
      assert c[found.index] == MetaJson(init[j]);
      assert init[j] == metas[j];
      StepAppendedHit(existing, c, metas, found.index, j);
    } else {
      StepExistingOrMiss(existing, c, metas);
    }
  }

  /** A hit on a pushed entry, the object of an earlier record: the list is
      unchanged and the record is not fresh. */
  lemma StepAppendedHit(existing: seq<Value>, c: seq<Value>, metas: seq<Meta>, h: nat, j: nat)
    requires NoNulls(existing) && |metas| > 0 && j < |metas| - 1
    requires |existing| <= h < |c| && c[..|existing|] == existing && c[h] == MetaJson(metas[j])
    requires Find(c, "youtubeId", SameKey(metas[|metas| - 1].youtubeId), 0) == Hit(h)
    ensures Step(c, metas[|metas| - 1]) == Some(c)
    ensures !Fresh(existing, metas, |metas| - 1)
  {
    var m := metas[|metas| - 1];
    forall i | 0 <= i < |existing| ensures !StrictEquals(KeyOf(existing[i]), m.youtubeId) {
      assert c[i] == existing[i];
    }
    NotFreshByEarlier(existing, metas, j);
  }

  /** A hit on an entry of `existing`, or a miss: the record is pushed
      exactly when it is fresh. */
  lemma StepExistingOrMiss(existing: seq<Value>, c: seq<Value>, metas: seq<Meta>)
    requires NoNulls(existing) && |metas| > 0
    requires NoNulls(c) && |existing| <= |c| && c[..|existing|] == existing
    requires Covers(c, metas[..|metas| - 1])
    requires var found := Find(c, "youtubeId", SameKey(metas[|metas| - 1].youtubeId), 0);
      !(found.Hit? && found.index >= |existing|)
    ensures var m := metas[|metas| - 1];
      Step(c, m) == if Fresh(existing, metas, |metas| - 1) then Some(c + [MetaJson(m)]) else Some(c)
  {
    var m := metas[|metas| - 1];
    var found := Find(c, "youtubeId", SameKey(m.youtubeId), 0);
    FindNoNulls(c, "youtubeId", SameKey(m.youtubeId));
    if found.Hit? {
      var h := found.index;
      forall i | 0 <= i <= h ensures c[i] == existing[i] { }
      assert FirstKeyMatch(existing, m.youtubeId, h);
      FreshAtFirstMatch(existing, metas, h);
    } else {
      MissFresh(existing, c, metas);
    }
  }

  /** When the first matching entry of `existing` is at `h`, the record is
      fresh exactly when that entry is falsy. */
  lemma FreshAtFirstMatch(existing: seq<Value>, metas: seq<Meta>, h: nat)
    requires NoNulls(existing) && |metas| > 0
    requires FirstKeyMatch(existing, metas[|metas| - 1].youtubeId, h)
    ensures Fresh(existing, metas, |metas| - 1) <==> !Truthy(existing[h])
  {
    var id := metas[|metas| - 1].youtubeId;
    forall i | 0 <= i < |existing| && FirstKeyMatch(existing, id, i) ensures i == h {
      FirstKeyMatchUnique(existing, id, i, h);
    }
  }

  lemma FirstKeyMatchUnique(existing: seq<Value>, id: Value, i: int, h: int)
    requires NoNulls(existing) && FirstKeyMatch(existing, id, i) && FirstKeyMatch(existing, id, h)
    ensures i == h
  {
  }

  /** A record whose id no existing entry holds but an earlier record does
      is not fresh. */
  lemma NotFreshByEarlier(existing: seq<Value>, metas: seq<Meta>, j: nat)
    requires NoNulls(existing) && j < |metas| - 1
    requires StrictEquals(metas[j].youtubeId, metas[|metas| - 1].youtubeId)
    requires forall i :: 0 <= i < |existing| ==> !StrictEquals(KeyOf(existing[i]), metas[|metas| - 1].youtubeId)
    ensures !Fresh(existing, metas, |metas| - 1)
  {
  }

  /** A lookup that misses means no existing entry and, through coverage,
      no earlier record shares the id: the record is fresh. */
  lemma MissFresh(existing: seq<Value>, c: seq<Value>, metas: seq<Meta>)
    requires NoNulls(existing) && |metas| > 0
    requires NoNulls(c) && |existing| <= |c| && c[..|existing|] == existing
    requires Covers(c, metas[..|metas| - 1])
    requires Find(c, "youtubeId", SameKey(metas[|metas| - 1].youtubeId), 0).Miss?
    ensures Fresh(existing, metas, |metas| - 1)
  {
    var n := |metas| - 1;
    var init, m := metas[..n], metas[n];
    forall i | 0 <= i < |c| ensures !StrictEquals(KeyOf(c[i]), m.youtubeId) {
      assert !SameKey(m.youtubeId)(Get(c[i], "youtubeId"));
    }
    forall i | 0 <= i < |existing| ensures !StrictEquals(KeyOf(existing[i]), m.youtubeId) {
      assert c[i] == existing[i];
    }
    forall j | 0 <= j < n ensures !StrictEquals(metas[j].youtubeId, m.youtubeId) {
      assert init[j] == metas[j];
      assert init[j].youtubeId in Keys(c);
      var i :| 0 <= i < |c| && Keys(c)[i] == init[j].youtubeId;
      StrictEqualsPrimitive(metas[j].youtubeId, m.youtubeId);
      StrictEqualsPrimitive(KeyOf(c[i]), m.youtubeId);
    }
  }

  /** Merging one more record keeps every record's key covered. */
  lemma CoversStep(existing: seq<Value>, metas: seq<Meta>)
    requires NoNulls(existing) && |metas| > 0
    requires NoNulls(existing + Appended(existing, metas))
    requires NoNulls(existing + Appended(existing, metas[..|metas| - 1]))
    requires Covers(existing + Appended(existing, metas[..|metas| - 1]), metas[..|metas| - 1])
    ensures Covers(existing + Appended(existing, metas), metas)
  {
    var n := |metas| - 1;
    var init := metas[..n];
    var c := existing + Appended(existing, init);
    var tail := AppendedLast(existing, metas);
    var r := c + tail;
    CoversAppend(c, tail, init);
    CoversLast(existing, metas);
    CoversOneMore(r, metas);
  }

  lemma CoversOneMore(r: seq<Value>, metas: seq<Meta>)
    requires NoNulls(r) && |metas| > 0 && Covers(r, metas[..|metas| - 1])
    requires metas[|metas| - 1].youtubeId in Keys(r)
    ensures Covers(r, metas)
  {
    var n := |metas| - 1;
    forall j | 0 <= j < n ensures metas[j].youtubeId in Keys(r) {
      assert metas[..n][j] == metas[j];
    }
  }

  /** The merged list after the last record is the list before it plus
      what the last record pushes. */
  lemma AppendedLast(existing: seq<Value>, metas: seq<Meta>) returns (tail: seq<Value>)
    requires NoNulls(existing) && |metas| > 0
    ensures NoNulls(tail) && |tail| <= 1
    ensures existing + Appended(existing, metas)
         == existing + Appended(existing, metas[..|metas| - 1]) + tail
  {
    var n := |metas| - 1;
    tail := if Fresh(existing, metas, n) then [MetaJson(metas[n])] else [];
  }

  lemma KeysConcat(a: seq<Value>, b: seq<Value>)
    requires NoNulls(a) && NoNulls(b)
    ensures NoNulls(a + b) && Keys(a + b) == Keys(a) + Keys(b)
  {
  }

  /** Coverage survives appending entries. */
  lemma CoversAppend(c: seq<Value>, tail: seq<Value>, metas: seq<Meta>)
    requires NoNulls(c) && NoNulls(tail) && Covers(c, metas)
    ensures NoNulls(c + tail) && Covers(c + tail, metas)
  {
    KeysConcat(c, tail);
  }

  /** After its step, the last record's key is covered. */
  lemma CoversLast(existing: seq<Value>, metas: seq<Meta>)
    requires NoNulls(existing) && |metas| > 0
    requires NoNulls(existing + Appended(existing, metas))
    requires NoNulls(existing + Appended(existing, metas[..|metas| - 1]))
    requires Covers(existing + Appended(existing, metas[..|metas| - 1]), metas[..|metas| - 1])
    ensures metas[|metas| - 1].youtubeId in Keys(existing + Appended(existing, metas))
  {
    var n := |metas| - 1;
    var init, m := metas[..n], metas[n];
    var c := existing + Appended(existing, init);
    var r := existing + Appended(existing, metas);
    if Fresh(existing, metas, n) {
      assert r == c + [MetaJson(m)];
      assert Keys(r)[|c|] == m.youtubeId;
    } else {
      assert r == c;
      if i :| 0 <= i < |existing| && StrictEquals(KeyOf(existing[i]), m.youtubeId) {
        assert Keys(r)[i] == KeyOf(existing[i]);
      } else {
        var j :| 0 <= j < n && StrictEquals(metas[j].youtubeId, m.youtubeId);
        assert init[j] == metas[j];
      }
    }
  }

  /** Each appended entry is the JSON of some record. */
  lemma {:induction false} AppendedSource(existing: seq<Value>, metas: seq<Meta>, p: nat) returns (j: nat)
    requires NoNulls(existing) && p < |Appended(existing, metas)|
    ensures j < |metas| && Appended(existing, metas)[p] == MetaJson(metas[j])
    decreases |metas|
  {
    var n := |metas| - 1;
    var a := Appended(existing, metas[..n]);
    if p < |a| {
      j := AppendedSource(existing, metas[..n], p);
      assert metas[..n][j] == metas[j];
    } else {
      j := n;
    }
  }

  /** No two entries have `===` keys. */
  predicate DistinctKeys(c: seq<Value>) {
    && NoNulls(c)
    && forall i, j :: 0 <= i < j < |c| ==> !StrictEquals(KeyOf(c[i]), KeyOf(c[j]))
  }

  /** If `existing` holds only truthy entries and no duplicate `youtubeId`,
      the merge adds no duplicate either. */
  lemma {:induction false} MergeKeepsDistinct(existing: seq<Value>, metas: seq<Meta>)
    requires DistinctKeys(existing) && AllTruthy(existing)
    ensures DistinctKeys(Merge(existing, metas).value)
    decreases |metas|
  {
    if metas != [] {
      var n := |metas| - 1;
      var m := metas[n];
      MergeKeepsDistinct(existing, metas[..n]);
      var c := Merge(existing, metas[..n]).value;
      assert Merge(existing, metas) == Step(c, m);
      var found := Find(c, "youtubeId", SameKey(m.youtubeId), 0);
      FindNoNulls(c, "youtubeId", SameKey(m.youtubeId));
      if found.Hit? {
        var h := found.index;
        if h < |existing| {
          assert c[h] == existing[h];
        }
        assert Truthy(c[h]);
      } else {
        var r := c + [MetaJson(m)];
        forall i, j | 0 <= i < j < |r|
          ensures !StrictEquals(KeyOf(r[i]), KeyOf(r[j]))
        {
          if j == |c| {
            assert SameKey(m.youtubeId)(Get(c[i], "youtubeId")) == StrictEquals(KeyOf(c[i]), m.youtubeId);
            assert KeyOf(r[j]) == m.youtubeId;
          } else {
            assert r[i] == c[i] && r[j] == c[j];
          }
        }
      }
    }
  }

  predicate PrimitiveKeys(metas: seq<Meta>) {
    forall k :: 0 <= k < |metas| ==> Primitive(metas[k].youtubeId)
  }

  /** A list of truthy entries that already covers every record's
      (primitive) key is left unchanged by merging those records. */
  lemma {:induction false} MergeCovered(c: seq<Value>, metas: seq<Meta>)
    requires NoNulls(c) && AllTruthy(c) && PrimitiveKeys(metas) && Covers(c, metas)
    ensures Merge(c, metas) == Some(c)
    decreases |metas|
  {
    if metas != [] {
      var n := |metas| - 1;
      var m := metas[n];
      assert Covers(c, metas[..n]) by {
        forall j | 0 <= j < n ensures metas[..n][j] == metas[j] { }
      }
      assert PrimitiveKeys(metas[..n]) by {
        forall j | 0 <= j < n ensures metas[..n][j] == metas[j] { }
      }
      MergeCovered(c, metas[..n]);
      StepCovered(c, m);
    }
  }

  /** A record whose primitive id a list of truthy entries already holds
      leaves that list unchanged. */
  lemma StepCovered(c: seq<Value>, m: Meta)
    requires NoNulls(c) && AllTruthy(c) && Primitive(m.youtubeId) && m.youtubeId in Keys(c)
    ensures Step(c, m) == Some(c)
  {
    var i :| 0 <= i < |c| && Keys(c)[i] == m.youtubeId;
    assert SameKey(m.youtubeId)(Get(c[i], "youtubeId"));
    FindNoNulls(c, "youtubeId", SameKey(m.youtubeId));
    var found := Find(c, "youtubeId", SameKey(m.youtubeId), 0);
    assert found.Hit?;
    assert Truthy(c[found.index]);
  }

  /** Merging the same records a second time changes nothing, when the list
      holds only truthy entries and the ids are strings or other primitives
      (as yt-dlp's ids are). */
  lemma MergeIdempotent(existing: seq<Value>, metas: seq<Meta>)
    requires NoNulls(existing) && AllTruthy(existing) && PrimitiveKeys(metas)
    ensures Merge(Merge(existing, metas).value, metas) == Merge(existing, metas)
  {
    MergeAppendsFresh(existing, metas);
    var r := Merge(existing, metas).value;
    forall i | 0 <= i < |r| ensures Truthy(r[i]) {
      if i < |existing| {
        assert r[i] == r[..|existing|][i];
      }
    }
    MergeCovered(r, metas);
  }

  /** A falsy entry does not block a record whose key it matches: `0` has
      an `undefined` key, so a record without an id is pushed past it, and
      merging the same record again pushes it a second time. */
  lemma FalsyEntryPushes(m: Meta)
    requires m.youtubeId == Undefined
    ensures Merge([Num(0)], [m]) == Some([Num(0), MetaJson(m)])
    ensures Merge([Num(0), MetaJson(m)], [m]) == Some([Num(0), MetaJson(m), MetaJson(m)])
  {
    var once, twice := [Num(0)], [Num(0), MetaJson(m)];
    assert [m][..0] == [];
    assert SameKey(m.youtubeId)(Get(Num(0), "youtubeId"));
    assert Find(once, "youtubeId", SameKey(m.youtubeId), 0) == Hit(0);
    assert Find(twice, "youtubeId", SameKey(m.youtubeId), 0) == Hit(0);
    assert Merge(once, []) == Some(once);
    assert Merge(twice, []) == Some(twice);
    assert Step(once, m) == Some(once + [MetaJson(m)]);
    assert Step(twice, m) == Some(twice + [MetaJson(m)]);
    assert Merge(once, [m]) == Step(once, m);
    assert Merge(twice, [m]) == Step(twice, m);
    assert once + [MetaJson(m)] == twice;
    assert twice + [MetaJson(m)] == [Num(0), MetaJson(m), MetaJson(m)];
  }

  // ---------------------------------------------------------------------
  // The whole run
  // ---------------------------------------------------------------------

  /** The state of `meta.json` before the run. */
  datatype ExistingFile = Missing | Unreadable | Parsed(entries: seq<Value>)

  /** `existing`: the parsed array, or `[]` when the file is missing or
      does not parse. */
  function ExistingEntries(f: ExistingFile): seq<Value> {
    if f.Parsed? then f.entries else []
  }

  /** Some info file fails to parse, or holds `null`; either aborts the run. */
  predicate InfoParseFails(files: seq<string>, read: string -> Option<Value>) {
    var names := InfoJsonFiles(files);
    exists i :: 0 <= i < |names| && (read(names[i]).None? || Nullish(read(names[i]).value))
  }

  /** The parse outcome of every info file, in listing order. */
  function ParseAll(files: seq<string>, read: string -> Option<Value>): (parsed: seq<Option<Value>>)
    ensures |parsed| == |InfoJsonFiles(files)|
    ensures forall i :: 0 <= i < |parsed| ==> parsed[i] == read(InfoJsonFiles(files)[i])
  {
    var names := InfoJsonFiles(files);
    seq(|names|, i requires 0 <= i < |names| => read(names[i]))
  }

  /** Building the records fails exactly when some info file fails. */
  lemma NewMetasFailsIff(files: seq<string>, read: string -> Option<Value>, channel: string)
    ensures NewMetas(ParseAll(files, read), channel).None? <==> InfoParseFails(files, read)
  {
  }


  /** What the run writes to `meta.json` (`None`: an exception was caught
      and nothing is written). `downloaded` is whether the yt-dlp download
      finished without error; `files` is the directory listing afterwards;
      `read(f)` is the outcome of parsing file `f`. */
  function Run(downloaded: bool, files: seq<string>, read: string -> Option<Value>,
               existing: ExistingFile, channel: string): (r: Option<seq<Value>>)
    ensures !downloaded ==> r.None?
    ensures downloaded && InfoParseFails(files, read) ==> r.None?
    ensures downloaded && !InfoParseFails(files, read) && NoNulls(ExistingEntries(existing)) ==> r.Some?
    ensures r.None? ==>
      !downloaded || InfoParseFails(files, read) || !NoNulls(ExistingEntries(existing))
    ensures r.Some? ==> |ExistingEntries(existing)| <= |r.value| <= |ExistingEntries(existing)| + |InfoJsonFiles(files)|
    ensures r.Some? ==> r.value[..|ExistingEntries(existing)|] == ExistingEntries(existing)
  {
    if !downloaded then None
    else
      NewMetasFailsIff(files, read, channel);
      match NewMetas(ParseAll(files, read), channel)
      case None => None
      case Some(metas) =>
        Merge(ExistingEntries(existing), metas)
  }

  /** When every info file parses to an object and `meta.json` holds no
      `null`, the run writes the old entries followed by the fresh records,
      and every downloaded video's id appears in the result. */
  lemma RunWrites(files: seq<string>, read: string -> Option<Value>,
                  existing: ExistingFile, channel: string)
    requires forall f :: f in InfoJsonFiles(files) ==> read(f).Some? && !Nullish(read(f).value)
    requires NoNulls(ExistingEntries(existing))
    ensures var parsed := ParseAll(files, read);
      var metas := NewMetas(parsed, channel).value;
      && NewMetas(parsed, channel).Some?
      && Run(true, files, read, existing, channel)
           == Some(ExistingEntries(existing) + Appended(ExistingEntries(existing), metas))
      && Covers(Run(true, files, read, existing, channel).value, metas)
  {
    var names := InfoJsonFiles(files);
    var parsed := ParseAll(files, read);
    assert forall i :: 0 <= i < |parsed| ==> parsed[i].Some? && !Nullish(parsed[i].value) by {
      forall i | 0 <= i < |parsed| ensures parsed[i].Some? && !Nullish(parsed[i].value) {
        assert names[i] in names;
      }
    }
    MergeAppendsFresh(ExistingEntries(existing), NewMetas(parsed, channel).value);
  }

  /** An unparseable `meta.json` is treated exactly like a missing one, and
      the rewritten file then has no duplicate `youtubeId`. */
  lemma RunUnreadable(downloaded: bool, files: seq<string>, read: string -> Option<Value>, channel: string)
    ensures Run(downloaded, files, read, Unreadable, channel) == Run(downloaded, files, read, Missing, channel)
    ensures Run(downloaded, files, read, Unreadable, channel).Some? ==>
      DistinctKeys(Run(downloaded, files, read, Unreadable, channel).value)
  {
    if downloaded {
      var parsed := ParseAll(files, read);
      if NewMetas(parsed, channel).Some? {
        MergeKeepsDistinct([], NewMetas(parsed, channel).value);
      }
    }
  }
}
