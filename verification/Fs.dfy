/** The web server's read-only file system: a linked list of named files. */
module Fs {
  import opened Common

  /** The list from FS_ROOT on; names hold no zero byte. */
  datatype Files = Null | File(name: seq<Octet>, data: seq<Octet>, next: Files)

  function Length(fs: Files): nat { if fs.Null? then 0 else 1 + Length(fs.next) }

  /** The k-th file of the list. */
  function At(fs: Files, k: nat): Files
    requires k < Length(fs)
    ensures At(fs, k).File?
  {
    if k == 0 then fs else At(fs.next, k - 1)
  }

  predicate Has(fs: Files, name: seq<Octet>) {
    fs.File? && (fs.name == name || Has(fs.next, name))
  }

  /** What a file of that name holds: the first in the list counts. */
  function Data(fs: Files, name: seq<Octet>): seq<Octet>
    requires Has(fs, name)
  {
    if fs.name == name then fs.data else Data(fs.next, name)
  }

  /** The k-th file is the first of that name. */
  predicate FirstAt(fs: Files, name: seq<Octet>, k: nat) {
    k < Length(fs) && At(fs, k).name == name && forall j: nat :: j < k ==> At(fs, j).name != name
  }

  /** Data is what the first file of that name holds, and there is one unless no file has it. */
  lemma {:induction false} OpensTheFirst(fs: Files, name: seq<Octet>)
    ensures Has(fs, name) ==> exists k: nat :: FirstAt(fs, name, k) && At(fs, k).data == Data(fs, name)
    ensures !Has(fs, name) ==> forall j: nat :: j < Length(fs) ==> At(fs, j).name != name
  {
    if fs.Null? {
    } else if fs.name == name {
      assert FirstAt(fs, name, 0);
    } else {
      OpensTheFirst(fs.next, name);
      assert forall j: nat :: 0 < j < Length(fs) ==> At(fs, j) == At(fs.next, j - 1);
      if Has(fs.next, name) {
        var k: nat :| FirstAt(fs.next, name, k) && At(fs.next, k).data == Data(fs.next, name);
        assert FirstAt(fs, name, k + 1);
      }
    }
  }

  /** fs_open: walk the list. */
  method FsOpen(root: Files, name: seq<Octet>) returns (file: Option<seq<Octet>>)
    ensures file == if Has(root, name) then Some(Data(root, name)) else None
  {
    var f := root;
    while f != Null
      invariant Has(root, name) <==> Has(f, name)
      invariant Has(f, name) ==> Data(f, name) == Data(root, name)
      decreases f
    {
      if f.name == name {
        return Some(f.data);
      }
      f := f.next;
    }
    return None;
  }
}
