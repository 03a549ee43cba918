/** The IntelliJ platform as the core sees it: virtual files, modules with
    their output directories, and the PSI classes the project index finds.
    Every query the source makes of the platform is a field of a record
    (a finite map or a set) in the modules that use it. */
module Idea {
  import opened Common

  /** A virtual file: the directories above it and its name. The file-system
      root is not a `VFile`, so every file has a parent directory. */
  datatype VFile = VFile(dir: seq<string>, name: string) {
    /** The full path, directories and name. */
    function Path(): seq<string> {
      dir + [name]
    }

    /** `getParent().findChild(child)`: the sibling named `child`. */
    function Sibling(child: string): VFile {
      VFile(dir, child)
    }
  }

  /** `VfsUtil.isUnder(file, singleton(root))`: the file is the root or lies
      below it; a null root contains nothing. */
  predicate IsUnder(f: VFile, root: Option<VFile>) {
    root.Some? && |root.value.Path()| <= |f.Path()| && f.Path()[..|root.value.Path()|] == root.value.Path()
  }

  /** A module of the compile scope, with its main and test output
      directories as the compile context reports them (either may be null). */
  datatype Module = Module(name: string, output: Option<VFile>, testOutput: Option<VFile>)

  /** A class found in the project index: the virtual file of its containing
      PSI file (may be null), and the default extension of that file's type. */
  datatype PsiClass = PsiClass(containingFile: Option<VFile>, fileExtension: string)
}
