/** The directory helper that places a folder inside the public Downloads
    directory. The Downloads root is a parameter; creating the directory is
    file-system I/O and is not modelled. */
module DownloaderPaths {
  import opened Text

  /** `getDirInsideDownloads`: a folder name starting with `/` is appended to
      the root as is, any other is joined to it with one `/`. */
  function DirInsideDownloads(root: string, folderName: string): (path: string)
    ensures StartsWith(path, root)
    ensures |path| >= |folderName| && path[|path| - |folderName|..] == folderName
    ensures |path| == |root| + |folderName| + (if StartsWith(folderName, "/") then 0 else 1)
    ensures |path| > |root| && path[|root|] == '/'
  {
    if StartsWith(folderName, "/") then root + folderName else root + "/" + folderName
  }

  /** Writing the leading `/` of a folder name or leaving it out gives the
      same directory. */
  lemma LeadingSlashIrrelevant(root: string, x: string)
    requires !StartsWith(x, "/")
    ensures DirInsideDownloads(root, "/" + x) == DirInsideDownloads(root, x)
  {
    assert root + ("/" + x) == root + "/" + x;
  }
}
