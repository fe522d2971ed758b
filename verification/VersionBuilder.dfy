/** Applying version edits (db/version_set.cc, VersionSet::Builder). */
module VersionBuilder {
  import opened InternalKeys
  import opened FlatSpec
  import opened Versions

  datatype LevelFile = LevelFile(level: nat, file: File)
  datatype LevelNumber = LevelNumber(level: nat, number: nat)

  /** The file part of a version edit. */
  datatype FileEdit = FileEdit(deleted: seq<LevelNumber>, added: seq<LevelFile>)

  predicate WfEdit(e: FileEdit) {
    && (forall d :: d in e.deleted ==> d.level < NUM_LEVELS)
    && (forall a :: a in e.added ==> a.level < NUM_LEVELS)
  }

  // ---------- what one edit means ----------

  function Numbers(fs: set<File>): set<nat> {
    set f | f in fs :: f.number
  }

  function AddedAt(added: seq<LevelFile>, l: nat): set<File> {
    set a | a in added && a.level == l :: a.file
  }

  function DeletedAt(deleted: seq<LevelNumber>, l: nat): set<nat> {
    set d | d in deleted && d.level == l :: d.number
  }

  /** One level after one edit: deletions first, then additions. */
  function EditLevel(fs: set<File>, e: FileEdit, l: nat): set<File> {
    (set f | f in fs && f.number !in DeletedAt(e.deleted, l)) + AddedAt(e.added, l)
  }

  function EditAll(fs: set<File>, edits: seq<FileEdit>, l: nat): set<File> {
    if edits == [] then fs else EditLevel(EditAll(fs, edits[..|edits|-1], l), edits[|edits|-1], l)
  }

  // ---------- the file order inside a level ----------

  /** BySmallestKey: by smallest key, ties by file number. */
  predicate Before(f: File, g: File) {
    Less(Smallest(f), Smallest(g)) || (Smallest(f) == Smallest(g) && f.number < g.number)
  }

  predicate InOrder(fs: seq<File>) {
    forall i, j :: 0 <= i < j < |fs| ==> Before(fs[i], fs[j])
  }

  lemma BeforeTrichotomy(f: File, g: File)
    ensures Before(f, g) || Before(g, f) || (Smallest(f) == Smallest(g) && f.number == g.number)
    ensures !(Before(f, g) && Before(g, f)) && !Before(f, f)
  {
    CompareIsLexicographic(Smallest(f), Smallest(g));
    CompareIsLexicographic(Smallest(g), Smallest(f));
    CompareIsLexicographic(Smallest(f), Smallest(f));
  }

  lemma BeforeTransitive(f: File, g: File, h: File)
    requires Before(f, g) && Before(g, h)
    ensures Before(f, h)
  {
    CompareIsLexicographic(Smallest(f), Smallest(g));
    CompareIsLexicographic(Smallest(g), Smallest(h));
    CompareIsLexicographic(Smallest(f), Smallest(h));
  }

  /** An ordered listing of disjoint files is a sorted level. */
  lemma InOrderDisjointIsSorted(fs: seq<File>)
    requires InOrder(fs)
    requires forall f, g :: f in fs && g in fs && f != g ==> Less(Largest(f), Smallest(g)) || Less(Largest(g), Smallest(f))
    ensures LevelSorted(fs)
  {
    forall i, j | 0 <= i < j < |fs| ensures Less(Largest(fs[i]), Smallest(fs[j])) {
      assert Before(fs[i], fs[j]);
      BeforeTrichotomy(fs[i], fs[j]);
      SmallestToLargest(fs[j]);
      CompareIsLexicographic(Smallest(fs[i]), Smallest(fs[j]));
      CompareIsLexicographic(Smallest(fs[j]), Largest(fs[j]));
      CompareIsLexicographic(Largest(fs[j]), Smallest(fs[i]));
      assert fs[i] in fs && fs[j] in fs;
    }
  }

  /** std::set insertion: an equivalent element already present wins. */
  function InsertFile(fs: seq<File>, f: File): (r: seq<File>)
    requires InOrder(fs)
    ensures InOrder(r)
    ensures forall g :: g in r ==> g == f || g in fs
    ensures forall g :: g in fs ==> g in r
    ensures (forall g :: g in fs ==> g.number != f.number) ==> f in r
  {
    if fs == [] then [f]
    else
      var last := |fs| - 1;
      BeforeTrichotomy(fs[last], f);
      assert fs == fs[..last] + [fs[last]];
      if Before(fs[last], f) then
        AppendInOrder(fs, f);
        fs + [f]
      else if Before(f, fs[last]) then
        var t := InsertFile(fs[..last], f);
        assert forall g :: g in t ==> Before(g, fs[last]);
        AppendInOrder(t, fs[last]);
        t + [fs[last]]
      else fs
  }

  lemma AppendInOrder(fs: seq<File>, f: File)
    requires InOrder(fs) && (fs != [] ==> Before(fs[|fs|-1], f))
    ensures InOrder(fs + [f])
  {
    forall i | 0 <= i < |fs| ensures Before(fs[i], f) {
      if i < |fs| - 1 { BeforeTransitive(fs[i], fs[|fs|-1], f); }
    }
  }

  // ---------- the builder ----------

  class Builder {
    const base: seq<seq<File>>
    var deleted: seq<set<nat>>
    var added: seq<seq<File>>

    constructor (base: seq<seq<File>>)
      requires |base| == NUM_LEVELS && forall l :: 0 <= l < NUM_LEVELS ==> InOrder(base[l]) && DistinctNumbers(Files(base[l]))
      ensures Valid() && this.base == base
      ensures forall l :: 0 <= l < NUM_LEVELS ==> Known(l) == Current(l) == Files(base[l])
    {
      this.base := base;
      deleted := seq(NUM_LEVELS, _ => {});
      added := seq(NUM_LEVELS, _ => []);
      new;
      assert forall l :: 0 <= l < NUM_LEVELS ==> Known(l) == Files(base[l]);
    }

    function Known(l: nat): set<File>
      requires l < |base| && l < |added|
      reads this
    {
      Files(base[l]) + Files(added[l])
    }

    ghost predicate Valid()
      reads this
    {
      && |base| == |deleted| == |added| == NUM_LEVELS
      && (forall l :: 0 <= l < NUM_LEVELS ==> InOrder(base[l]) && InOrder(added[l]))
      && (forall l :: 0 <= l < NUM_LEVELS ==> DistinctNumbers(Known(l)) && Files(base[l]) !! Files(added[l]))
    }

    /** Every file number the builder has met at a level. */
    function Seen(l: nat): set<nat>
      requires l < |base| && l < |added|
      reads this
    {
      Numbers(Known(l))
    }

    /** The files the builder stands for at a level. */
    function Current(l: nat): set<File>
      requires l < |base| && l < |added| && l < |deleted|
      reads this
    {
      set f | f in Known(l) && f.number !in deleted[l]
    }

    method DeleteFile(level: nat, number: nat)
      requires Valid() && level < NUM_LEVELS
      modifies this
      ensures Valid()
      ensures forall l :: 0 <= l < NUM_LEVELS ==> Known(l) == old(Known(l))
      ensures forall l :: 0 <= l < NUM_LEVELS ==>
                Current(l) == if l == level then (set f | f in old(Current(l)) && f.number != number) else old(Current(l))
    {
      deleted := deleted[level := deleted[level] + {number}];
      assert forall l :: 0 <= l < NUM_LEVELS ==> Known(l) == old(Known(l));
    }

    method AddFile(level: nat, f: File)
      requires Valid() && level < NUM_LEVELS && f.number !in Seen(level)
      modifies this
      ensures Valid()
      ensures forall l :: 0 <= l < NUM_LEVELS ==> Known(l) == if l == level then old(Known(l)) + {f} else old(Known(l))
      ensures forall l :: 0 <= l < NUM_LEVELS ==> Current(l) == if l == level then old(Current(l)) + {f} else old(Current(l))
    {
      hide Before;
      deleted := deleted[level := deleted[level] - {f.number}];
      assert forall g :: g in added[level] ==> g in Known(level);
      added := added[level := InsertFile(added[level], f)];
      assert Files(added[level]) == Files(old(added)[level]) + {f};
      assert forall l :: 0 <= l < NUM_LEVELS && l != level ==> Known(l) == old(Known(l));
      assert Known(level) == old(Known(level)) + {f};
      assert forall g :: g in old(Known(level)) ==> g.number in old(Seen(level));
    }

    /** Applies one edit: deletions, then additions. */
    method Apply(e: FileEdit)
      requires Valid() && WfEdit(e) && FreshAdds(this.SeenAll(), e.added)
      modifies this
      ensures Valid()
      ensures forall l :: 0 <= l < NUM_LEVELS ==> Known(l) == old(Known(l)) + AddedAt(e.added, l)
      ensures forall l :: 0 <= l < NUM_LEVELS ==> Current(l) == EditLevel(old(Current(l)), e, l)
    {
      hide InOrder, DistinctNumbers;
      var i := 0;
      while i < |e.deleted|
        invariant 0 <= i <= |e.deleted| && Valid()
        invariant forall l :: 0 <= l < NUM_LEVELS ==> Known(l) == old(Known(l))
        invariant forall l :: 0 <= l < NUM_LEVELS ==>
                    Current(l) == set f | f in old(Current(l)) && f.number !in DeletedAt(e.deleted[..i], l)
      {
        DeletedSnoc(e.deleted, i);
        DeleteFile(e.deleted[i].level, e.deleted[i].number);
        i := i + 1;
      }
      assert e.deleted[..i] == e.deleted;
      i := 0;
      while i < |e.added|
        invariant 0 <= i <= |e.added| && Valid()
        invariant forall l :: 0 <= l < NUM_LEVELS ==> Known(l) == old(Known(l)) + AddedAt(e.added[..i], l)
        invariant forall l :: 0 <= l < NUM_LEVELS ==>
                    Current(l) == (set f | f in old(Current(l)) && f.number !in DeletedAt(e.deleted, l)) + AddedAt(e.added[..i], l)
      {
        AddedSnoc(e.added, i);
        FreshStays(old(SeenAll()), e.added, i, Known(e.added[i].level), old(Known(e.added[i].level)));
        AddFile(e.added[i].level, e.added[i].file);
        i := i + 1;
      }
      assert e.added[..i] == e.added;
    }

    function SeenAll(): seq<set<nat>>
      requires |base| == |added| == NUM_LEVELS
      reads this
    {
      seq(NUM_LEVELS, l requires 0 <= l < NUM_LEVELS && l < |base| && l < |added| reads this => Seen(l))
    }

    lemma KnownIsMergeable(l: nat)
      requires Valid() && l < NUM_LEVELS
      ensures Mergeable(base[l], added[l])
    {
      forall f, g | f in base[l] && g in added[l] ensures f.number != g.number {
        assert f in Known(l) && g in Known(l) && f in Files(base[l]) && g in Files(added[l]);
      }
    }

    /** Merges base and added files of every level, dropping deleted ones. */
    method SaveTo() returns (v: seq<seq<File>>)
      requires Valid()
      ensures |v| == NUM_LEVELS
      ensures forall l :: 0 <= l < NUM_LEVELS ==> InOrder(v[l]) && Files(v[l]) == Current(l)
    {
      v := [];
      var level := 0;
      while level < NUM_LEVELS
        invariant 0 <= level <= NUM_LEVELS && |v| == level
        invariant forall l :: 0 <= l < level ==> InOrder(v[l]) && Files(v[l]) == Current(l)
      {
        KnownIsMergeable(level);
        var merged := MergeLevel(base[level], added[level], deleted[level]);
        v := v + [merged];
        level := level + 1;
      }
    }
  }

  ghost predicate DistinctNumbers(fs: set<File>) {
    forall f, g :: f in fs && g in fs && f.number == g.number ==> f == g
  }

  /** No addition reuses a file number its level has already met. */
  predicate FreshAdds(seen: seq<set<nat>>, added: seq<LevelFile>) {
    && (forall i :: 0 <= i < |added| ==> added[i].level < |seen| && added[i].file.number !in seen[added[i].level])
    && (forall i, j :: 0 <= i < j < |added| && added[i].level == added[j].level ==>
         added[i].file.number != added[j].file.number)
  }

  lemma DeletedSnoc(ds: seq<LevelNumber>, i: nat)
    requires i < |ds|
    ensures forall l: nat :: DeletedAt(ds[..i+1], l) ==
              if ds[i].level == l then DeletedAt(ds[..i], l) + {ds[i].number} else DeletedAt(ds[..i], l)
  {
    assert ds[..i+1] == ds[..i] + [ds[i]];
  }

  lemma AddedSnoc(adds: seq<LevelFile>, i: nat)
    requires i < |adds|
    ensures forall l: nat :: AddedAt(adds[..i+1], l) ==
              if adds[i].level == l then AddedAt(adds[..i], l) + {adds[i].file} else AddedAt(adds[..i], l)
  {
    assert adds[..i+1] == adds[..i] + [adds[i]];
  }

  lemma FreshStays(seen: seq<set<nat>>, added: seq<LevelFile>, i: nat, known: set<File>, before: set<File>)
    requires FreshAdds(seen, added) && i < |added|
    requires known == before + AddedAt(added[..i], added[i].level)
    requires Numbers(before) == seen[added[i].level]
    ensures added[i].file.number !in Numbers(known)
  {
    forall f | f in known ensures f.number != added[i].file.number {
      if f in before {
        assert f.number in Numbers(before);
      } else {
        var a :| a in added[..i] && a.level == added[i].level && a.file == f;
        var j :| 0 <= j < i && added[..i][j] == a;
        assert added[j] == a;
      }
    }
  }

  /** MaybeAddFile: deleted files are skipped. */
  function MaybeAdd(v: seq<File>, f: File, deleted: set<nat>): seq<File> {
    if f.number in deleted then v else v + [f]
  }

  predicate Ahead(v: seq<File>, rest: seq<File>) {
    forall f, g :: f in v && g in rest ==> Before(f, g)
  }

  /** The merge so far: `v` lists, in order and ahead of everything left, the files
      taken from the two lists that are not deleted. */
  ghost predicate Merging(v: seq<File>, base: seq<File>, b: nat, added: seq<File>, a: nat, deleted: set<nat>) {
    && b <= |base| && a <= |added|
    && InOrder(v) && Ahead(v, base[b..]) && Ahead(v, added[a..])
    && forall g :: g in v <==> (g in base[..b] || g in added[..a]) && g.number !in deleted
  }

  predicate Mergeable(base: seq<File>, added: seq<File>) {
    && InOrder(base) && InOrder(added)
    && forall f, g :: f in base && g in added ==> f.number != g.number
  }

  lemma TakeBase(v: seq<File>, base: seq<File>, b: nat, added: seq<File>, a: nat, deleted: set<nat>)
    requires Mergeable(base, added) && Merging(v, base, b, added, a, deleted)
    requires b < |base| && (a < |added| ==> !Before(added[a], base[b]))
    ensures Merging(MaybeAdd(v, base[b], deleted), base, b + 1, added, a, deleted)
  {
    if a < |added| { BaseGoesFirst(base, b, added, a); }
    MaybeAddKeeps(v, base, b, added[a..], deleted);
    assert base[..b+1] == base[..b] + [base[b]];
  }

  lemma TakeAdded(v: seq<File>, base: seq<File>, b: nat, added: seq<File>, a: nat, deleted: set<nat>)
    requires Mergeable(base, added) && Merging(v, base, b, added, a, deleted)
    requires a < |added| && (b < |base| ==> Before(added[a], base[b]))
    ensures Merging(MaybeAdd(v, added[a], deleted), base, b, added, a + 1, deleted)
  {
    AddedGoesFirst(base, b, added, a);
    MaybeAddKeeps(v, added, a, base[b..], deleted);
    assert added[..a+1] == added[..a] + [added[a]];
  }

  /** One level: walk the added files, copying all smaller base files before each. */
  method MergeLevel(base: seq<File>, added: seq<File>, deleted: set<nat>) returns (v: seq<File>)
    requires Mergeable(base, added)
    ensures InOrder(v)
    ensures Files(v) == set f | f in Files(base) + Files(added) && f.number !in deleted
  {
    v := [];
    var b, a := 0, 0;
    while a < |added|
      invariant Merging(v, base, b, added, a, deleted)
    {
      while b < |base| && !Before(added[a], base[b])
        invariant Merging(v, base, b, added, a, deleted)
      {
        TakeBase(v, base, b, added, a, deleted);
        v := MaybeAdd(v, base[b], deleted);
        b := b + 1;
      }
      TakeAdded(v, base, b, added, a, deleted);
      v := MaybeAdd(v, added[a], deleted);
      a := a + 1;
    }
    while b < |base|
      invariant Merging(v, base, b, added, a, deleted) && a == |added|
    {
      TakeBase(v, base, b, added, a, deleted);
      v := MaybeAdd(v, base[b], deleted);
      b := b + 1;
    }
    assert base[..b] == base && added[..a] == added;
  }

  lemma BaseGoesFirst(base: seq<File>, b: nat, added: seq<File>, a: nat)
    requires InOrder(added) && b < |base| && a < |added| && !Before(added[a], base[b])
    requires base[b].number != added[a].number
    ensures forall g :: g in added[a..] ==> Before(base[b], g)
  {
    forall g | g in added[a..] ensures Before(base[b], g) {
      var i :| a <= i < |added| && added[i] == g;
      BeforeTrichotomy(base[b], added[a]);
      if a < i { BeforeTransitive(base[b], added[a], added[i]); }
    }
  }

  lemma AddedGoesFirst(base: seq<File>, b: nat, added: seq<File>, a: nat)
    requires InOrder(base) && b <= |base| && a < |added|
    requires b < |base| ==> Before(added[a], base[b])
    ensures forall g :: g in base[b..] ==> Before(added[a], g)
  {
    forall g | g in base[b..] ensures Before(added[a], g) {
      var i :| b <= i < |base| && base[i] == g;
      if b < i { BeforeTransitive(added[a], base[b], base[i]); }
    }
  }

  /** Taking the next file of one list keeps the output ordered and ahead of what is left. */
  lemma MaybeAddKeeps(v: seq<File>, from: seq<File>, i: nat, other: seq<File>, deleted: set<nat>)
    requires InOrder(v) && InOrder(from) && i < |from|
    requires Ahead(v, from[i..]) && Ahead(v, other)
    requires forall g :: g in other ==> Before(from[i], g)
    ensures var v' := MaybeAdd(v, from[i], deleted); InOrder(v') && Ahead(v', from[i+1..]) && Ahead(v', other)
  {
    assert from[i] in from[i..];
    assert forall g :: g in from[i+1..] ==> g in from[i..];
    forall g | g in from[i+1..] ensures Before(from[i], g) {
      var j :| i + 1 <= j < |from| && from[j] == g;
    }
    if v != [] { assert v[|v|-1] in v; }
    AppendInOrder(v, from[i]);
  }

  // ---------- a whole manifest ----------

  /** A list of edits none of which adds a file number its level has met before. */
  ghost predicate NeverAddedTwice(base: seq<set<File>>, edits: seq<FileEdit>) {
    |base| == NUM_LEVELS &&
    forall i :: 0 <= i < |edits| ==> WfEdit(edits[i]) && FreshAdds(MetBy(base, edits[..i]), edits[i].added)
  }

  ghost function MetAt(base: set<File>, edits: seq<FileEdit>, l: nat): set<File> {
    if edits == [] then base else MetAt(base, edits[..|edits|-1], l) + AddedAt(edits[|edits|-1].added, l)
  }

  ghost function MetBy(base: seq<set<File>>, edits: seq<FileEdit>): seq<set<nat>> {
    seq(|base|, l requires 0 <= l < |base| => Numbers(MetAt(base[l], edits, l)))
  }

  /** Replaying a manifest through one builder gives, level by level and in order,
      what applying its edits one after the other gives. */
  method ReplayManifest(base: seq<seq<File>>, edits: seq<FileEdit>) returns (v: seq<seq<File>>)
    requires |base| == NUM_LEVELS && forall l :: 0 <= l < NUM_LEVELS ==> InOrder(base[l]) && DistinctNumbers(Files(base[l]))
    requires NeverAddedTwice(seq(NUM_LEVELS, l requires 0 <= l < NUM_LEVELS => Files(base[l])), edits)
    ensures |v| == NUM_LEVELS
    ensures forall l :: 0 <= l < NUM_LEVELS ==> InOrder(v[l]) && Files(v[l]) == EditAll(Files(base[l]), edits, l)
    ensures forall l, i, j :: 0 <= l < NUM_LEVELS && 0 <= i < j < |v[l]| ==>
              || Less(Smallest(v[l][i]), Smallest(v[l][j]))
              || (Smallest(v[l][i]) == Smallest(v[l][j]) && v[l][i].number < v[l][j].number)
  {
    var builder := new Builder(base);
    ghost var start := seq(NUM_LEVELS, l requires 0 <= l < NUM_LEVELS => Files(base[l]));
    var i := 0;
    assert edits[..0] == [];
    while i < |edits|
      invariant 0 <= i <= |edits| && builder.Valid() && builder.base == base
      invariant forall l :: 0 <= l < NUM_LEVELS ==> builder.Known(l) == MetAt(start[l], edits[..i], l)
      invariant forall l :: 0 <= l < NUM_LEVELS ==> builder.Current(l) == EditAll(start[l], edits[..i], l)
    {
      assert edits[..i+1][..i] == edits[..i];
      assert builder.SeenAll() == MetBy(start, edits[..i]);
      builder.Apply(edits[i]);
      i := i + 1;
    }
    assert edits[..i] == edits;
    v := builder.SaveTo();
  }
}
