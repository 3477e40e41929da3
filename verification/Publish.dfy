/** Publication of a staged directory with rollback: what a crash after any
    single file system operation leaves behind. */
module Publish {
  import opened Wrappers

  /** A directory tree, opaque here but for equality. */
  type Tree = map<string, string>

  datatype Disk = Disk(destination: Option<Tree>, backup: Option<Tree>, candidate: Option<Tree>)

  /** The old tree is whole at the destination or in the backup, or the complete
      new tree is at the destination. */
  predicate Safe(d: Disk, before: Option<Tree>, candidate: Tree) {
    d.destination == Some(candidate) || d.destination == before || (before != None && d.backup == before)
  }

  datatype Outcome = Published | Raised

  /** Which of the operations fail, as the system decides: the two renames, the
      rename back, and the removal of the backup, which may stop half way. */
  datatype Faults = Faults(moveOut: bool, moveIn: bool, moveBack: bool, removal: Option<Tree>)

  class Parent {
    var destination: Option<Tree>
    var backup: Option<Tree>
    var candidate: Option<Tree>
    ghost var seen: seq<Disk>   // the state after each operation, the present one last

    function Now(): Disk
      reads this
    {
      Disk(destination, backup, candidate)
    }

    constructor (destination: Option<Tree>, candidate: Tree)
      ensures Now() == Disk(destination, None, Some(candidate)) && seen == [Now()]
    {
      this.destination, backup, this.candidate := destination, None, Some(candidate);
      seen := [Disk(destination, None, Some(candidate))];
    }

    /** os.replace(candidate, destination): all or nothing. */
    method MoveIn(fails: bool) returns (ok: bool)
      requires candidate.Some?
      modifies this
      ensures ok == !fails
      ensures Now() == if ok then old(Now()).(destination := old(candidate), candidate := None) else old(Now())
      ensures seen == old(seen) + [Now()]
    {
      if !fails {
        destination, candidate := candidate, None;
      }
      seen := seen + [Now()];
      ok := !fails;
    }

    /** _publish_staged_directory */
    method PublishStaged(f: Faults) returns (r: Outcome)
      requires candidate.Some? && backup == None && seen == [Now()]
      modifies this
      ensures seen != [] && seen[|seen| - 1] == Now()
      ensures forall i :: 0 <= i < |seen| ==> Safe(seen[i], old(destination), old(candidate).value)
      ensures r == Raised <==> f.moveIn || (old(destination) != None && f.moveOut)
      ensures r == Published <==> destination == old(candidate) && candidate == None
      ensures r == Published ==> backup == if old(destination) == None then None else f.removal
      ensures r == Raised ==>
                candidate == old(candidate)
                && if f.moveBack && backup != None then destination == None && backup == old(destination)
                   else destination == old(destination) && backup == None
    {
      if destination == None {
        var ok := MoveIn(f.moveIn);
        return if ok then Published else Raised;
      }
      if f.moveOut { return Raised; }
      destination, backup := None, destination;
      seen := seen + [Now()];
      var ok := MoveIn(f.moveIn);
      if !ok {
        if !f.moveBack {
          destination, backup := backup, None;
        }
        seen := seen + [Now()];
        return Raised;
      }
      backup := f.removal;
      seen := seen + [Now()];
      r := Published;
    }
  }
}
