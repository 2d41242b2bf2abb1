/** The operating-system file layer the tag engine runs against: `os.Stat`,
    `os.ReadDir`, `os.ReadFile` and `os.WriteFile` over a disk whose state is
    a map from full paths to files and directories. */
module Os {
  import opened Types
  import Paths

  datatype Node = File(data: seq<byte>) | Directory

  /** A disk: what lives at each path, plus the paths whose reads and writes
      fail (permissions, I/O faults, a missing parent directory). */
  datatype Disk = Disk(entries: map<string, Node>, unreadable: set<string>, unwritable: set<string>)

  /** One entry of a directory listing. */
  datatype DirEntry = DirEntry(name: string, isDir: bool)

  /** os.Stat(path) succeeds. */
  predicate Exists(d: Disk, path: string)
  {
    path in d.entries
  }

  predicate IsDir(d: Disk, path: string)
  {
    path in d.entries && d.entries[path].Directory?
  }

  /** `p` names an entry directly inside `dir`. */
  predicate IsChild(dir: string, p: string)
  {
    |p| > |dir| + 1 && p[..|dir| + 1] == dir + "/" && '/' !in p[|dir| + 1..]
  }

  /** The names of the entries directly inside `dir`. */
  function Children(d: Disk, dir: string): (names: set<string>)
    ensures forall name :: name in names ==> Paths.Join(dir, name) in d.entries
  {
    var names := set p | p in d.entries && IsChild(dir, p) :: p[|dir| + 1..];
    assert forall name :: name in names ==> Paths.Join(dir, name) in d.entries by {
      forall name | name in names ensures Paths.Join(dir, name) in d.entries {
        var p :| p in d.entries && IsChild(dir, p) && name == p[|dir| + 1..];
        assert p == p[..|dir| + 1] + p[|dir| + 1..];
      }
    }
    names
  }

  /** os.ReadDir(dir): the entries of `dir` sorted by name. */
  function ReadDir(d: Disk, dir: string): (r: Result<seq<DirEntry>>)
    ensures r.Ok? <==> IsDir(d, dir) && dir !in d.unreadable
    ensures r.Ok? ==> |r.value| == |Children(d, dir)|
    ensures r.Ok? ==> forall i :: 0 <= i < |r.value| ==> r.value[i].name in Children(d, dir)
    ensures r.Ok? ==> forall i, j :: 0 <= i < j < |r.value| ==> LexLess(r.value[i].name, r.value[j].name)
    ensures r.Ok? ==> forall i :: 0 <= i < |r.value| ==> r.value[i].isDir == IsDir(d, Paths.Join(dir, r.value[i].name))
  {
    if dir !in d.entries then Err(NotExist(dir))
    else if d.entries[dir].File? then Err(NotDirectory(dir))
    else if dir in d.unreadable then Err(NotReadable(dir))
    else
      var names := SortNames(Children(d, dir));
      Ok(seq(|names|, i requires 0 <= i < |names| =>
        DirEntry(names[i], IsDir(d, Paths.Join(dir, names[i])))))
  }

  /** os.ReadFile(path). */
  function ReadFile(d: Disk, path: string): (r: Result<seq<byte>>)
    ensures r.Ok? <==> path in d.entries && d.entries[path].File? && path !in d.unreadable
    ensures r.Ok? ==> r.value == d.entries[path].data
  {
    if path !in d.entries then Err(NotExist(path))
    else if d.entries[path].Directory? then Err(IsDirectory(path))
    else if path in d.unreadable then Err(NotReadable(path))
    else Ok(d.entries[path].data)
  }

  /** os.WriteFile(path, data): create or truncate, then write. */
  function WriteTo(d: Disk, path: string, data: seq<byte>): (r: Result<Disk>)
    ensures r.Ok? <==> !IsDir(d, path) && path !in d.unwritable
    ensures r.Ok? ==> r.value == d.(entries := d.entries[path := File(data)])
  {
    if IsDir(d, path) then Err(IsDirectory(path))
    else if path in d.unwritable then Err(NotWritable(path))
    else Ok(d.(entries := d.entries[path := File(data)]))
  }

  /** The machine's file system, whose state the engine changes by writing. */
  class FileSystem {
    var disk: Disk

    constructor (disk: Disk)
      ensures this.disk == disk
    {
      this.disk := disk;
    }

    method WriteFile(path: string, data: seq<byte>) returns (err: Option<Error>)
      modifies this
      ensures match WriteTo(old(disk), path, data)
              case Ok(d) => err == None && disk == d
              case Err(e) => err == Some(e) && disk == old(disk)
    {
      match WriteTo(disk, path, data)
      case Ok(d) =>
        disk := d;
        err := None;
      case Err(e) =>
        err := Some(e);
    }
  }

  // Name order, as Go compares strings: lexicographic on characters.

  predicate LexLe(a: string, b: string)
    decreases |a|
  {
    a == [] || (b != [] && (a[0] < b[0] || (a[0] == b[0] && LexLe(a[1..], b[1..]))))
  }

  predicate LexLess(a: string, b: string)
  {
    LexLe(a, b) && a != b
  }

  lemma {:induction false} LexLeTotal(a: string, b: string)
    ensures LexLe(a, b) || LexLe(b, a)
    decreases |a|
  {
    if a != [] && b != [] && a[0] == b[0] {
      LexLeTotal(a[1..], b[1..]);
    }
  }

  lemma {:induction false} LexLeAntisymmetric(a: string, b: string)
    requires LexLe(a, b) && LexLe(b, a)
    ensures a == b
    decreases |a|
  {
    if a != [] {
      LexLeAntisymmetric(a[1..], b[1..]);
      assert a == [a[0]] + a[1..] && b == [b[0]] + b[1..];
    }
  }

  lemma {:induction false} LexLeTransitive(a: string, b: string, c: string)
    requires LexLe(a, b) && LexLe(b, c)
    ensures LexLe(a, c)
    decreases |a|
  {
    if a != [] && a[0] == b[0] && b[0] == c[0] {
      LexLeTransitive(a[1..], b[1..], c[1..]);
    }
  }

  predicate IsLeast(m: string, names: set<string>)
  {
    m in names && forall x :: x in names ==> LexLe(m, x)
  }

  /** Every non-empty finite set of names has a least name. */
  lemma {:induction false} LeastExists(names: set<string>) returns (m: string)
    requires names != {}
    ensures IsLeast(m, names)
    decreases |names|
  {
    var y :| y in names;
    LexLeTotal(y, y);
    if names == {y} {
      m := y;
    } else {
      var rest := names - {y};
      assert |rest| < |names|;
      var m' := LeastExists(rest);
      LexLeTotal(m', y);
      if LexLe(m', y) {
        m := m';
      } else {
        m := y;
        forall x | x in rest ensures LexLe(y, x) {
          LexLeTransitive(y, m', x);
        }
      }
    }
  }

  /** The names in increasing order, each once. */
  function SortNames(names: set<string>): (r: seq<string>)
    ensures |r| == |names|
    ensures forall x :: x in r <==> x in names
    ensures forall i, j :: 0 <= i < j < |r| ==> LexLess(r[i], r[j])
    decreases |names|
  {
    if names == {} then []
    else
      assert exists m :: IsLeast(m, names) by {
        var least := LeastExists(names);
      }
      assert forall a, b :: a in names && b in names && LexLe(a, b) && LexLe(b, a) ==> a == b by {
        forall a, b | a in names && b in names && LexLe(a, b) && LexLe(b, a) ensures a == b {
          LexLeAntisymmetric(a, b);
        }
      }
      var m :| IsLeast(m, names);
      var rest := SortNames(names - {m});
      [m] + rest
  }
}
