/**
 Publishing a set of staged files into an output directory: files in the way are moved to a
 backup directory first, and a failure at any step puts everything back.
 */
module Publishing {
  import opened HwpModel

  datatype Entry = File(content: seq<int>) | Folder | Link

  type Directory = map<string, Entry>

  /** Nothing, or a plain file: links and folders are not replaced. */
  predicate Safe(dir: Directory, name: string) {
    name in dir ==> dir[name].File?
  }

  function Names(list: seq<string>): set<string> {
    set n | n in list
  }

  predicate Distinct(names: seq<string>) {
    forall i, j :: 0 <= i < j < |names| ==> names[i] != names[j]
  }

  /** The entries of a directory under the given names. */
  function Only(dir: Directory, names: set<string>): Directory {
    map n | n in dir && n in names :: dir[n]
  }

  /** The directory with the given names taken from another one. */
  function Overlaid(dir: Directory, names: set<string>, other: Directory): Directory
    requires names <= other.Keys
  {
    map n | n in dir.Keys + names :: if n in names then other[n] else dir[n]
  }

  lemma NamesSnoc(list: seq<string>, i: nat)
    requires i < |list|
    ensures Names(list[..i + 1]) == Names(list[..i]) + {list[i]}
    ensures Distinct(list) ==> list[i] !in Names(list[..i])
  {
    assert list[..i + 1] == list[..i] + [list[i]];
  }

  lemma NamesFrom(list: seq<string>, i: nat)
    requires i < |list|
    ensures Names(list[i..]) == Names(list[i + 1..]) + {list[i]}
    ensures Distinct(list) ==> list[i] !in Names(list[i + 1..])
  {
    assert list[i..] == [list[i]] + list[i + 1..];
  }

  lemma NamesOfAll(list: seq<string>)
    ensures Names(list[..0]) == Names(list[|list|..]) == {}
    ensures list[..|list|] == list && list[0..] == list
  {
  }

  lemma OverlaidOneMore(dir: Directory, names: set<string>, other: Directory, name: string)
    requires names <= other.Keys && name in other
    ensures Overlaid(dir, names, other)[name := other[name]] == Overlaid(dir, names + {name}, other)
    ensures (Overlaid(dir, names, other) - {name})[name := other[name]] == Overlaid(dir, names + {name}, other)
  {
  }

  lemma OverlaidNothing(dir: Directory, other: Directory)
    ensures Overlaid(dir, {}, other) == dir
  {
  }

  /** The names of a list that are in the directory, in order. */
  function Present(names: seq<string>, dir: Directory): seq<string> {
    if names == [] then []
    else Present(names[..|names| - 1], dir) + if names[|names| - 1] in dir then [names[|names| - 1]] else []
  }

  lemma {:induction false} PresentNames(names: seq<string>, dir: Directory)
    ensures Names(Present(names, dir)) == Names(names) * dir.Keys
  {
    if names != [] {
      var front, last := names[..|names| - 1], names[|names| - 1];
      PresentNames(front, dir);
      assert names == front + [last];
      assert Names(names) == Names(front) + {last};
      assert Names(Present(front, dir) + [last]) == Names(Present(front, dir)) + {last};
      assert Present(front, dir) + [] == Present(front, dir);
    }
  }

  lemma PresentStep(names: seq<string>, i: nat, dir: Directory)
    requires i < |names|
    ensures Present(names[..i + 1], dir) == Present(names[..i], dir) + if names[i] in dir then [names[i]] else []
  {
    assert names[..i + 1][..i] == names[..i];
  }

  lemma {:induction false} PresentGrows(names: seq<string>, i: nat, dir: Directory)
    requires i < |names|
    ensures |Present(names[..i], dir)| + (if names[i] in dir then 1 else 0) <= |Present(names, dir)|
    decreases |names|
  {
    var last := |names| - 1;
    if i < last {
      PresentGrows(names[..last], i, dir);
      assert names[..last][..i] == names[..i];
    }
  }

  lemma {:induction false} PresentDistinct(names: seq<string>, dir: Directory)
    requires Distinct(names)
    ensures Distinct(Present(names, dir))
  {
    if names != [] {
      var front := names[..|names| - 1];
      PresentDistinct(front, dir);
      PresentNames(front, dir);
      NamesSnoc(names, |names| - 1);
      assert forall n :: n in Present(front, dir) ==> n in Names(Present(front, dir)) ==> n in Names(front);
      assert names[..|names| - 1 + 1] == names;
    }
  }

  /** Taking away what was published and putting back what was there gives the old directory. */
  lemma PutBack(before: Directory, done: set<string>, present: set<string>, backup: Directory, original: Directory)
    requires present <= original.Keys && present <= backup.Keys && done * original.Keys <= present
    requires forall n :: n in present ==> backup[n] == original[n]
    requires forall n :: n !in done && n !in present ==> (n in before <==> n in original)
    requires forall n :: n !in done && n !in present && n in before ==> before[n] == original[n]
    ensures Overlaid(before - done, present, backup) == original
  {
    var after := Overlaid(before - done, present, backup);
    forall n ensures n in after <==> n in original {
    }
    forall n | n in after ensures after[n] == original[n] {
    }
  }

  class Publisher {
    var stage: Directory
    var output: Directory
    var backup: Directory
    /** How many moves succeed before one fails, if one does. */
    const failAfter: Option<nat>
    var moves: nat

    constructor (stage: Directory, output: Directory, failAfter: Option<nat>)
      ensures this.stage == stage && this.output == output && backup == map[]
      ensures this.failAfter == failAfter && moves == 0
    {
      this.stage, this.output, this.failAfter, backup, moves := stage, output, failAfter, map[], 0;
    }

    method TryMove() returns (ok: bool)
      modifies this`moves
      ensures ok <==> failAfter != Some(old(moves))
      ensures moves == old(moves) + 1
    {
      ok := failAfter != Some(moves);
      moves := moves + 1;
    }

    /** Takes away what was published, last first. */
    method Unlink(published: seq<string>)
      requires Distinct(published) && forall n :: n in published ==> n in output && output[n].File?
      modifies this`output
      ensures output == old(output) - Names(published)
    {
      hide Names, Distinct;
      var k := |published|;
      NamesOfAll(published);
      while k > 0
        invariant 0 <= k <= |published|
        invariant output == old(output) - Names(published[k..])
      {
        k := k - 1;
        NamesFrom(published, k);
        var name := published[k];
        if !output[name].Folder? {
          output := output - {name};
        }
      }
    }

    /** Moves the backed-up files back, last first. */
    method Restore(backups: seq<string>)
      requires Distinct(backups) && Names(backups) <= backup.Keys
      modifies this`output, this`backup
      ensures output == Overlaid(old(output), Names(backups), old(backup))
    {
      hide Names, Distinct, Overlaid;
      ghost var output0, backup0 := output, backup;
      var k := |backups|;
      NamesOfAll(backups);
      OverlaidNothing(output0, backup0);
      while k > 0
        invariant 0 <= k <= |backups| && Names(backups[k..]) <= backup0.Keys
        invariant output == Overlaid(output0, Names(backups[k..]), backup0)
        invariant backup == backup0 - Names(backups[k..])
      {
        k := k - 1;
        NamesFrom(backups, k);
        var name := backups[k];
        NameOf(backups, k);
        if name in backup {
          OverlaidOneMore(output0, Names(backups[k + 1..]), backup0, name);
          output := output[name := backup[name]];
          backup := backup - {name};
        }
      }
    }

    lemma NameOf(list: seq<string>, k: nat)
      requires k < |list|
      ensures list[k] in Names(list)
    {
    }

    /** The first `i` names are published, and nothing else has changed. */
    ghost predicate Published(i: nat, names: seq<string>, stage0: Directory, output0: Directory)
      reads this`output, this`backup, this`stage
      requires i <= |names|
    {
      var done := Names(names[..i]);
      && done <= stage0.Keys && stage == stage0 - done
      && output == Overlaid(output0, done, stage0)
      && backup == Only(output0, done)
    }

    /** Rolls back; `half` says that the file in the way of `names[i]` is already in the backup. */
    method RollBack(published: seq<string>, backups: seq<string>, ghost i: nat, ghost half: bool,
        ghost names: seq<string>, ghost stage0: Directory, ghost output0: Directory)
      requires i < |names| && Distinct(names) && published == names[..i]
      requires forall n :: n in names && n in stage0 ==> stage0[n].File?
      requires Names(names[..i]) <= stage0.Keys
      requires half ==> backups == Present(names[..i + 1], output0) && backup == Only(output0, Names(names[..i + 1]))
      requires half ==> output == Overlaid(output0, Names(names[..i]), stage0) - {names[i]}
      requires !half ==> backups == Present(names[..i], output0) && Published(i, names, stage0, output0)
      modifies this`output, this`backup
      ensures output == output0
    {
      hide Present, Distinct;
      var k := if half then i + 1 else i;
      PresentNames(names[..k], output0);
      DistinctPrefix(names, i);
      DistinctPrefix(names, k);
      PresentDistinct(names[..k], output0);
      NamesSnoc(names, i);
      ghost var before := output;
      PutBack(before, Names(published), Names(backups), backup, output0);
      Unlink(published);
      Restore(backups);
    }

    /**
     All or nothing: on success every name holds its staged content and nothing else has
     changed; on any failure the output directory is as it was. It fails exactly when a staged
     file is missing, something unsafe is in the way, or one of the moves fails.
     */
    method Publish(names: seq<string>) returns (ok: bool)
      requires Distinct(names) && backup == map[]
      requires forall n :: n in names && n in stage ==> stage[n].File?
      modifies this`stage, this`output, this`backup, this`moves
      ensures !ok ==> output == old(output)
      ensures ok ==> Names(names) <= old(stage).Keys && output == Overlaid(old(output), Names(names), old(stage))
      ensures !ok <==>
        || (exists n :: n in names && (n !in old(stage) || !Safe(old(output), n)))
        || (failAfter.Some? && old(moves) <= failAfter.value < old(moves) + |names| + |Present(names, old(output))|)
    {
      hide Published, Present, Distinct, Safe, Overlaid, Names;
      ghost var stage0, output0, moves0 := stage, output, moves;
      var published: seq<string> := [];
      var backups: seq<string> := [];
      var i := 0;
      NothingPublished(names, output0);
      while i < |names|
        invariant 0 <= i <= |names| && published == names[..i]
        invariant Published(i, names, stage0, output0)
        invariant backups == Present(names[..i], output0)
        invariant moves == moves0 + i + |backups|
        invariant failAfter.Some? ==> !(moves0 <= failAfter.value < moves)
        invariant forall n :: n in names[..i] ==> n in stage0 && Safe(output0, n)
      {
        PresentStep(names, i, output0);
        PresentGrows(names, i, output0);
        assert names[..i + 1] == names[..i] + [names[i]];
        ok, published, backups := PublishOne(names, i, published, backups, stage0, output0);
        if !ok {
          assert names[i] in names;
          return false;
        }
        i := i + 1;
      }
      assert names[..i] == names;
      AllPublished(names, stage0, output0);
      return true;
    }

    lemma NothingPublished(names: seq<string>, output0: Directory)
      requires backup == map[] && output == output0
      ensures Published(0, names, stage, output) && Present(names[..0], output0) == []
    {
      OverlaidNothing(output, stage);
    }

    lemma AllPublished(names: seq<string>, stage0: Directory, output0: Directory)
      requires Published(|names|, names, stage0, output0)
      ensures Names(names) <= stage0.Keys && output == Overlaid(output0, Names(names), stage0)
    {
      assert names[..|names|] == names;
    }

    /** How many moves a name takes: one, and one more for a file in the way. */
    static function Moves(name: string, output0: Directory): nat {
      if name in output0 then 2 else 1
    }

    /** One name: the file in the way goes to the backup, the staged file takes its place. */
    method PublishOne(names: seq<string>, i: nat, published: seq<string>, backups: seq<string>,
        ghost stage0: Directory, ghost output0: Directory)
      returns (ok: bool, published': seq<string>, backups': seq<string>)
      requires i < |names| && Distinct(names) && published == names[..i] && backups == Present(names[..i], output0)
      requires Published(i, names, stage0, output0)
      requires forall n :: n in names && n in stage0 ==> stage0[n].File?
      modifies this`stage, this`output, this`backup, this`moves
      ensures !ok ==> output == output0
      ensures ok == (&& names[i] in stage0 && Safe(output0, names[i])
                     && !(failAfter.Some? && old(moves) <= failAfter.value < old(moves) + Moves(names[i], output0)))
      ensures ok ==> published' == names[..i + 1] && backups' == Present(names[..i + 1], output0)
      ensures ok ==> Published(i + 1, names, stage0, output0) && moves == old(moves) + Moves(names[i], output0)
    {
      hide Present, Distinct, Names, Overlaid, Only;
      ghost var done := Names(names[..i]);
      published', backups' := published, backups;
      var name := names[i];
      PresentStep(names, i, output0);
      NamesSnoc(names, i);
      OverlaidElsewhere(output0, done, stage0, name);
      OnlyOneMore(output0, done, name);
      if name in output && !output[name].File? {
        RollBack(published, backups, i, false, names, stage0, output0);
        return false, published, backups;
      }
      if name in output {
        var moved := TryMove();
        if !moved {
          RollBack(published, backups, i, false, names, stage0, output0);
          return false, published, backups;
        }
        backup := backup[name := output[name]];
        output := output - {name};
        backups' := backups + [name];
      }
      assert output == Overlaid(output0, done, stage0) - {name};
      var moved := TryMove();
      if !moved || name !in stage {
        RollBack(published, backups', i, true, names, stage0, output0);
        return false, published, backups';
      }
      OverlaidOneMore(output0, done, stage0, name);
      output := output[name := stage[name]];
      stage := stage - {name};
      published' := published + [name];
      ok := true;
    }
  }

  lemma DistinctPrefix(names: seq<string>, k: nat)
    requires Distinct(names) && k <= |names|
    ensures Distinct(names[..k])
  {
  }

  lemma OverlaidElsewhere(dir: Directory, names: set<string>, other: Directory, name: string)
    requires names <= other.Keys && name !in names
    ensures name in Overlaid(dir, names, other) <==> name in dir
    ensures name in dir ==> Overlaid(dir, names, other)[name] == dir[name]
  {
  }

  lemma OnlyOneMore(dir: Directory, names: set<string>, name: string)
    requires name !in names
    ensures name in dir ==> Only(dir, names)[name := dir[name]] == Only(dir, names + {name})
    ensures name !in dir ==> Only(dir, names) == Only(dir, names + {name})
  {
  }
}
