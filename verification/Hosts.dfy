/** The Manila host as the driver sees it through its commands. */
module Hosts {

  /** A copy of a directory into another that ran to completion, with what was mounted where then. */
  datatype Copied = Copied(source: string, target: string, mounts: map<string, string>)

  /** The Manila host: what is mounted where, the temporary directories, and the copies that were
      made. Its commands succeed or fail on a schedule of their own; a failed command has no effect. */
  class Host {
    var mounts: map<string, string>
    var dirs: set<string>
    var copies: seq<Copied>
    var clock: nat
    const works: nat -> bool

    constructor (works: nat -> bool)
      ensures mounts == map[] && dirs == {} && copies == [] && clock == 0 && this.works == works
    {
      this.mounts, this.dirs, this.copies, this.clock, this.works := map[], {}, [], 0, works;
    }

    ghost predicate WorksDuring(from: nat, until: nat)
    {
      forall i | from <= i < until :: works(i)
    }

    /** From this moment no command fails. */
    ghost predicate WorksFrom(from: nat)
    {
      forall i | i >= from :: works(i)
    }

    lemma WorksFromExactly(from: nat)
      ensures WorksFrom(from) <==> forall i | i >= from :: works(i)
    {
    }

    /** From this moment no command fails but perhaps the one at f. */
    ghost predicate WorksBut(from: nat, f: nat)
    {
      forall i | i >= from && i != f :: works(i)
    }

    method Command() returns (ok: bool)
      modifies this`clock
      ensures clock == old(clock) + 1 && ok == works(old(clock))
    {
      ok := works(clock);
      clock := clock + 1;
    }

    /** tempfile.mkdtemp; `name` is a path nothing uses yet. */
    method Mkdtemp(name: string) returns (ok: bool)
      requires name !in dirs && name !in mounts
      modifies this
      ensures clock == old(clock) + 1 && ok == works(old(clock))
      ensures copies == old(copies) && mounts == old(mounts)
      ensures dirs == if ok then old(dirs) + {name} else old(dirs)
    {
      ok := Command();
      if ok {
        dirs := dirs + {name};
      }
    }

    method Mount(what: string, path: string) returns (ok: bool)
      modifies this
      ensures clock == old(clock) + 1 && ok == works(old(clock))
      ensures copies == old(copies) && dirs == old(dirs)
      ensures mounts == if ok then old(mounts)[path := what] else old(mounts)
    {
      ok := Command();
      if ok {
        mounts := mounts[path := what];
      }
    }

    method Rsync(source: string, target: string) returns (ok: bool)
      modifies this`clock, this`copies
      ensures clock == old(clock) + 1 && ok == works(old(clock))
      ensures copies == old(copies) + if ok then [Copied(source, target, mounts)] else []
    {
      ok := Command();
      if ok {
        copies := copies + [Copied(source, target, mounts)];
      }
    }

    method Umount(path: string) returns (ok: bool)
      modifies this
      ensures clock == old(clock) + 1 && ok == works(old(clock))
      ensures copies == old(copies) && dirs == old(dirs)
      ensures mounts == if ok then old(mounts) - {path} else old(mounts)
    {
      ok := Command();
      if ok {
        mounts := mounts - {path};
      }
    }

    /** os.rmdir; refuses a directory something is mounted on. */
    method Rmdir(path: string)
      modifies this
      ensures clock == old(clock) + 1 && copies == old(copies) && mounts == old(mounts)
      ensures dirs == if works(old(clock)) && path !in mounts then old(dirs) - {path} else old(dirs)
    {
      var ok := Command();
      if ok && path !in mounts {
        dirs := dirs - {path};
      }
    }
  }
}
