/** File-name arithmetic shared by the avatar and image services:
    AvatarService.getFileExtension (which the model also uses for Spring's
    StringUtils.getFilenameExtension) and Path.resolve. */
module FileNames {
  import opened Strings

  /** getFileExtension: the text after the last '.', or "" when there is no
      '.' or the last '.' ends the name. */
  function FileExtension(fileName: string): (ext: string)
    ensures '.' !in ext
    ensures ext != [] ==> |ext| < |fileName| && fileName[|fileName| - |ext| - 1] == '.'
                          && fileName[|fileName| - |ext|..] == ext
  {
    var dot := LastIndexOf(fileName, '.');
    if dot == -1 || dot == |fileName| - 1 then ""
    else fileName[dot + 1..]
  }

  /** A name without any '.' has no extension. */
  lemma NoDotNoExtension(fileName: string)
    requires '.' !in fileName
    ensures FileExtension(fileName) == ""
  {
  }

  /** A name whose last '.' is its final character has no extension. */
  lemma TrailingDotNoExtension(fileName: string)
    requires fileName != [] && fileName[|fileName| - 1] == '.'
    ensures FileExtension(fileName) == ""
  {
  }

  /** Appending "." and a dot-free extension to any base gives that extension back. */
  lemma ExtensionRoundTrip(base: string, ext: string)
    requires '.' !in ext
    ensures FileExtension(base + "." + ext) == ext
  {
    var name := base + "." + ext;
    var dot := LastIndexOf(name, '.');
    assert name[|base|] == '.';
    assert dot == |base|;
    assert name[dot + 1..] == ext;
  }

  /** Path.resolve: a file `name` inside the directory `dir`. */
  function Resolve(dir: string, name: string): (p: string)
    ensures |p| == |dir| + 1 + |name| && p[..|dir|] == dir && p[|dir|] == '/' && p[|dir| + 1..] == name
  {
    dir + "/" + name
  }

  /** The path a service stores an upload under: a generated name plus the
      original extension, resolved in the configured directory. It keeps the
      extension of the uploaded file name. */
  function StoredPath(dir: string, freshName: string, originalFilename: string): (p: string)
    ensures FileExtension(p) == FileExtension(originalFilename)
  {
    var ext := FileExtension(originalFilename);
    var p := Resolve(dir, freshName + "." + ext);
    assert p == (dir + "/" + freshName) + "." + ext;
    ExtensionRoundTrip(dir + "/" + freshName, ext);
    p
  }
}
