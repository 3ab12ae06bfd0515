/**
 * The `cd` scope guard and the part of the file system it touches.
 *
 * The process working directory and the set of existing directories are
 * held in a `FileSystem` object; paths are sequences of components from the
 * root. A `Cd` records the working directory when it is created and the
 * sanitised name it will enter; `Enter` creates that directory (an existing
 * one is not an error) and changes into it, `Exit` changes back to the
 * recorded directory.
 */
module DirScope {
  import opened Text
  import opened Sanitize

  /** An absolute path, as its components from the root. */
  type Path = seq<string>

  /** The directory one relative component names, as the operating system resolves it. */
  function Resolve(cwd: Path, component: string): Path {
    if component == "." then cwd
    else if component == ".." then (if cwd == [] then [] else cwd[..|cwd| - 1])
    else cwd + [component]
  }

  /** Every existing directory other than the root has an existing parent. */
  ghost predicate ParentClosed(dirs: set<Path>) {
    forall p: Path, c: string :: p + [c] in dirs ==> p in dirs
  }

  /** The process-wide working directory and the directories that exist. */
  class FileSystem {
    var cwd: Path
    var dirs: set<Path>

    ghost predicate Valid()
      reads this
    {
      [] in dirs && cwd in dirs && ParentClosed(dirs)
    }

    /** A file system holding only the directories on the path to `start`, working in `start`. */
    constructor (start: Path)
      ensures Valid() && cwd == start
      ensures dirs == set k | 0 <= k <= |start| :: start[..k]
    {
      cwd := start;
      dirs := set k | 0 <= k <= |start| :: start[..k];
      new;
      assert start[..0] == [] && start[..|start|] == start;
      forall p: Path, c: string | p + [c] in dirs
        ensures p in dirs
      {
        var k :| 0 <= k <= |start| && p + [c] == start[..k];
        assert p == start[..k - 1];
      }
    }

    /**
     * `os.makedirs(component)` relative to the working directory: it fails
     * with FileNotFoundError on the empty name, and otherwise leaves the
     * directory existing, reporting whether it existed already.
     */
    method MakeDirs(component: string) returns (ok: bool, existed: bool)
      requires Valid() && '/' !in component
      modifies this
      ensures Valid() && cwd == old(cwd)
      ensures ok <==> component != ""
      ensures ok ==> existed == (Resolve(cwd, component) in old(dirs))
      ensures dirs == if ok then old(dirs) + {Resolve(cwd, component)} else old(dirs)
    {
      ok := component != "";
      existed := false;
      if ok {
        var target := Resolve(cwd, component);
        existed := target in dirs;
        forall p: Path, c: string | p + [c] == target
          ensures p in dirs
        {
          if component == ".." {
            assert cwd == target + [cwd[|cwd| - 1]];
            assert p == target[..|target| - 1];
            assert target == p + [c];
            assert p + [c] + [cwd[|cwd| - 1]] in dirs;
          } else if component != "." {
            assert p == (p + [c])[..|p|] == (cwd + [component])[..|cwd|] == cwd;
          }
        }
        dirs := dirs + {target};
      }
    }

    /** `os.chdir(p)` to an existing directory. */
    method ChangeDir(p: Path)
      requires Valid() && p in dirs
      modifies this
      ensures Valid() && cwd == p && dirs == old(dirs)
    {
      cwd := p;
    }
  }

  /** A `cd(name)` scope object. */
  class Cd {
    const fs: FileSystem
    /** The working directory when the object was created. */
    const oldDir: Path
    /** The sanitised name of the directory to enter. */
    const newDir: string

    ghost predicate Valid()
      reads this, fs
    {
      fs.Valid() && oldDir in fs.dirs && Safe(newDir)
    }

    /** `cd.__init__`: records the working directory and sanitises the name. */
    constructor (fs: FileSystem, name: string)
      requires fs.Valid()
      ensures Valid()
      ensures this.fs == fs && oldDir == fs.cwd && newDir == SanitizeName(name)
    {
      this.fs := fs;
      oldDir := fs.cwd;
      var ascii := DropNonAscii(name);
      var safe := ReplaceUnsafe(ascii);
      newDir := safe;
    }

    /**
     * `cd.__enter__`: creates the directory if it is missing and enters it.
     * Only the empty name fails (FileNotFoundError), changing nothing.
     */
    method Enter() returns (ok: bool)
      requires Valid()
      modifies fs
      ensures Valid()
      ensures ok <==> newDir != ""
      ensures ok ==> fs.cwd == Resolve(old(fs.cwd), newDir) && fs.dirs == old(fs.dirs) + {fs.cwd}
      ensures !ok ==> fs.cwd == old(fs.cwd) && fs.dirs == old(fs.dirs)
    {
      assert '/' in Unsafe;
      var existed;
      ok, existed := fs.MakeDirs(newDir);
      if ok {
        fs.ChangeDir(Resolve(fs.cwd, newDir));
      }
    }

    /** `cd.__exit__`: returns to the directory recorded at creation, whatever happened inside. */
    method Exit()
      requires Valid()
      modifies fs
      ensures Valid()
      ensures fs.cwd == oldDir && fs.dirs == old(fs.dirs)
    {
      fs.ChangeDir(oldDir);
    }
  }

  /**
   * Sanitising keeps the names `.` and `..`: `cd('.')` stays in the working
   * directory and `cd('..')` goes up one level instead of entering a new one.
   */
  lemma DotNamesKept(p: Path, c: string)
    ensures SanitizeName(".") == "." && SanitizeName("..") == ".."
    ensures Resolve(p, SanitizeName(".")) == p
    ensures Resolve(p + [c], SanitizeName("..")) == p
  {
    assert '.' !in Unsafe && IsAscii('.');
    assert forall x :: x in ".." ==> x == '.';
    SanitizeKeepsSafeAscii(".");
    SanitizeKeepsSafeAscii("..");
  }
}
