/** `ExtendedZip`: a directory tree added recursively to a zip archive, every entry stored below a
    local name. The tree is given with each directory's entries in the order `readdir` returns them. */
module Zip {
  import opened Text
  import opened Disk

  /** What `is_dir` / `is_file` see at a path; anything else (a socket, a dangling link) is `Other`. */
  datatype Tree = Folder(children: seq<Child>) | Leaf(content: Content) | Other
  datatype Child = Child(name: string, node: Tree)

  /** What the archive receives: `addEmptyDir(name)` or `addFile(path, name)`. */
  datatype ZipEntry = EmptyDir(name: string) | AddedFile(name: string, content: Content)

  /** The name inside the archive: below the local name when it is truthy, else the bare file name. */
  function EntryName(localname: string, filename: string): string {
    if Truthy(localname) then localname + "/" + filename else filename
  }

  predicate DotEntry(name: string) {
    name == "." || name == ".."
  }

  /** What `_addTree` adds for a directory's entries: the loop `while ($filename = readdir($dir))` ends
      at the first entry whose name is falsy, that is "0". */
  function ListDir(children: seq<Child>, localname: string): seq<ZipEntry>
    decreases children
  {
    if |children| == 0 || !Truthy(children[0].name) then []
    else
      var c := children[0];
      var here := EntryName(localname, c.name);
      var added :=
        if DotEntry(c.name) then []
        else match c.node
          case Folder(grand) => [EmptyDir(here)] + ListDir(grand, here)
          case Leaf(content) => [AddedFile(here, content)]
          case Other => [];
      added + ListDir(children[1..], localname)
  }

  /** The walk the loop evidently means, `while (false !== ($filename = readdir($dir)))`: only `.` and `..` are skipped. */
  function ListDirAll(children: seq<Child>, localname: string): seq<ZipEntry>
    decreases children
  {
    if |children| == 0 then []
    else
      var c := children[0];
      var here := EntryName(localname, c.name);
      var added :=
        if DotEntry(c.name) then []
        else match c.node
          case Folder(grand) => [EmptyDir(here)] + ListDirAll(grand, here)
          case Leaf(content) => [AddedFile(here, content)]
          case Other => [];
      added + ListDirAll(children[1..], localname)
  }

  /** What `addTree(dirname, localname)` adds: the local name's own directory first, when it is truthy. */
  function TreeEntries(children: seq<Child>, localname: string): seq<ZipEntry> {
    (if Truthy(localname) then [EmptyDir(localname)] else []) + ListDir(children, localname)
  }

  class ExtendedZip {
    /** The entries added so far, in the order they were added. */
    var entries: seq<ZipEntry>

    constructor ()
      ensures entries == []
    {
      entries := [];
    }

    method AddTree(root: seq<Child>, localname: string)
      modifies this
      ensures entries == old(entries) + TreeEntries(root, localname)
    {
      if Truthy(localname) {
        entries := entries + [EmptyDir(localname)];
      }
      AddTreeBelow(root, localname);
    }

    /** `_addTree`: one pass over the directory listing, recursing into each sub-directory. */
    method AddTreeBelow(children: seq<Child>, localname: string)
      modifies this
      ensures entries == old(entries) + ListDir(children, localname)
      decreases children
    {
      var i := 0;
      while i < |children| && Truthy(children[i].name)
        invariant 0 <= i <= |children|
        invariant entries + ListDir(children[i..], localname) == old(entries) + ListDir(children, localname)
        decreases |children| - i
      {
        var c := children[i];
        assert children[i..][0] == c && children[i..][1..] == children[i + 1..];
        var here := EntryName(localname, c.name);
        if !DotEntry(c.name) {
          match c.node {
            case Folder(grand) =>
              entries := entries + [EmptyDir(here)];
              AddTreeBelow(grand, here);
            case Leaf(content) =>
              entries := entries + [AddedFile(here, content)];
            case Other =>
          }
        }
        i := i + 1;
      }
    }
  }

  /** `ExtendedZip::zipTree(dirname, zipFilename, flags, localname)`: a fresh archive holding the tree. */
  method ZipTree(root: seq<Child>, localname: string) returns (archive: seq<ZipEntry>)
    ensures archive == TreeEntries(root, localname)
  {
    var zip := new ExtendedZip();
    zip.AddTree(root, localname);
    archive := zip.entries;
  }

  /** A name below a directory that is itself below a prefix is below that prefix. */
  lemma BelowBelow(name: string, here: string, prefix: string)
    requires StartsWith(name, here) && StartsWith(here, prefix)
    ensures StartsWith(name, prefix)
  {
    assert name[..|prefix|] == here[..|prefix|];
  }

  /** With a truthy local name every entry of the walk is stored below it. */
  lemma {:induction false} ListedBelow(children: seq<Child>, localname: string)
    requires Truthy(localname)
    ensures forall e :: e in ListDir(children, localname) ==> StartsWith(e.name, localname + "/")
    decreases children
  {
    if |children| > 0 && Truthy(children[0].name) {
      var c := children[0];
      var prefix := localname + "/";
      var here := EntryName(localname, c.name);
      assert StartsWith(here, prefix) by {
        assert here[..|prefix|] == prefix;
      }
      ListedBelow(children[1..], localname);
      if !DotEntry(c.name) && c.node.Folder? {
        var below := ListDir(c.node.children, here);
        ListedBelow(c.node.children, here);
        forall e | e in below
          ensures StartsWith(e.name, prefix)
        {
          BelowBelow(e.name, here + "/", here);
          BelowBelow(e.name, here, prefix);
        }
        assert ListDir(children, localname) == [EmptyDir(here)] + below + ListDir(children[1..], localname);
      }
    }
  }

  /** While no entry before it is named "0", a directory's entry reaches the archive as the intended walk adds it. */
  lemma {:induction false} ListDirAgrees(children: seq<Child>, localname: string)
    requires forall i :: 0 <= i < |children| ==> Truthy(children[i].name)
    requires forall i :: 0 <= i < |children| && children[i].node.Folder? ==>
      ListDir(children[i].node.children, EntryName(localname, children[i].name))
        == ListDirAll(children[i].node.children, EntryName(localname, children[i].name))
    ensures ListDir(children, localname) == ListDirAll(children, localname)
    decreases children
  {
    if |children| > 0 {
      ListDirAgrees(children[1..], localname);
      assert forall i :: 1 <= i < |children| ==> children[1..][i - 1] == children[i];
    }
  }

  /** Every file directly in a directory, other than `.` and `..`, is in the intended walk under its entry name. */
  lemma {:induction false} EveryFileListed(children: seq<Child>, localname: string, i: nat)
    requires i < |children| && !DotEntry(children[i].name) && children[i].node.Leaf?
    ensures AddedFile(EntryName(localname, children[i].name), children[i].node.content) in ListDirAll(children, localname)
    decreases children
  {
    if i > 0 {
      EveryFileListed(children[1..], localname, i - 1);
    }
  }

  /** Every sub-directory, and all the intended walk adds for it, is in the intended walk of its parent. */
  lemma {:induction false} EverySubdirListed(children: seq<Child>, localname: string, i: nat)
    requires i < |children| && !DotEntry(children[i].name) && children[i].node.Folder?
    ensures EmptyDir(EntryName(localname, children[i].name)) in ListDirAll(children, localname)
    ensures forall e :: e in ListDirAll(children[i].node.children, EntryName(localname, children[i].name)) ==>
      e in ListDirAll(children, localname)
    decreases children
  {
    if i > 0 {
      EverySubdirListed(children[1..], localname, i - 1);
    }
  }

  /** An entry named "0" ends the listing of its directory: the files after it never reach the archive. */
  lemma ZeroNameStopsListing(zero: Content, later: Content)
    ensures ListDir([Child("0", Leaf(zero)), Child("a.json", Leaf(later))], "content") == []
    ensures ListDirAll([Child("0", Leaf(zero)), Child("a.json", Leaf(later))], "content")
      == [AddedFile("content/0", zero), AddedFile("content/a.json", later)]
  {
    var cs := [Child("0", Leaf(zero)), Child("a.json", Leaf(later))];
    assert cs[1..] == [Child("a.json", Leaf(later))];
    assert cs[1..][1..] == [];
    assert Truthy("content");
    assert EntryName("content", "0") == "content/0";
    assert EntryName("content", "a.json") == "content/a.json";
    assert ListDirAll(cs[1..][1..], "content") == [];
    assert ListDirAll(cs[1..], "content") == [AddedFile("content/a.json", later)];
  }
}
