/** Landlock access rights and the launcher's fixed table from an access
    level (`--ro`, `--rw`, `--rox`, `--rwx`) and directory-ness to the rights
    a path rule grants. */
module Access {

  /** Filesystem rights (`landlock::AccessFs`). */
  datatype AccessFs =
    | Execute | WriteFile | ReadFile | ReadDir | RemoveDir | RemoveFile
    | MakeChar | MakeDir | MakeReg | MakeSock | MakeFifo | MakeBlock | MakeSym
    | Refer | Truncate | IoctlDev

  /** TCP rights (`landlock::AccessNet`). */
  datatype AccessNet = BindTcp | ConnectTcp

  /** The Landlock ABI version that introduced a filesystem right. */
  function IntroducedIn(a: AccessFs): nat {
    match a
    case Refer => 2
    case Truncate => 3
    case IoctlDev => 5
    case _ => 1
  }

  const AllFs: set<AccessFs> := {
    Execute, WriteFile, ReadFile, ReadDir, RemoveDir, RemoveFile,
    MakeChar, MakeDir, MakeReg, MakeSock, MakeFifo, MakeBlock, MakeSym,
    Refer, Truncate, IoctlDev
  }

  lemma AllFsComplete()
    ensures forall a: AccessFs :: a in AllFs
  {
    forall a: AccessFs
      ensures a in AllFs
    {
      match a
      case Execute =>
      case WriteFile =>
      case ReadFile =>
      case ReadDir =>
      case RemoveDir =>
      case RemoveFile =>
      case MakeChar =>
      case MakeDir =>
      case MakeReg =>
      case MakeSock =>
      case MakeFifo =>
      case MakeBlock =>
      case MakeSym =>
      case Refer =>
      case Truncate =>
      case IoctlDev =>
    }
  }

  /** The ABI the launcher hard-codes. */
  const V5: nat := 5

  /** `AccessFs::from_all(abi)`: every right the ABI version knows about. */
  function FromAll(abi: nat): (r: set<AccessFs>)
    ensures forall a :: a in r <==> IntroducedIn(a) <= abi
  {
    AllFsComplete();
    set a | a in AllFs && IntroducedIn(a) <= abi
  }

  /** At ABI 5 every filesystem right is handled. */
  lemma FromAllV5IsEverything()
    ensures forall a :: a in FromAll(V5)
  {
    forall a: AccessFs
      ensures IntroducedIn(a) <= V5
    {
    }
  }

  /** The access levels a path can be declared with. */
  datatype Level = ReadOnly | ReadWrite | ReadExecute | ReadWriteExecute {
    predicate Writes() { this == ReadWrite || this == ReadWriteExecute }
    predicate Executes() { this == ReadExecute || this == ReadWriteExecute }
  }

  /** The rights a path rule grants for `level`, as the four blocks of
      `sandbox::apply` build them. The launcher never grants Refer,
      Truncate or IoctlDev, so those stay denied under every rule. */
  function Grant(level: Level, isDir: bool): (r: set<AccessFs>)
    ensures ReadFile in r
    ensures ReadDir in r <==> isDir
    ensures Execute in r <==> level.Executes()
    ensures WriteFile in r <==> level.Writes()
    ensures Refer !in r && Truncate !in r && IoctlDev !in r
    ensures !level.Writes() ==> r <= {ReadFile, ReadDir, Execute}
    ensures !isDir ==> r <= {ReadFile, WriteFile, Execute}
    ensures r <= FromAll(V5)
  {
    match level
    case ReadExecute =>
      {ReadFile, Execute} + (if isDir then {ReadDir} else {})
    case ReadWriteExecute =>
      {ReadFile, WriteFile, Execute}
      + (if isDir then {ReadDir, RemoveDir, RemoveFile, MakeChar, MakeDir, MakeReg,
                        MakeSock, MakeFifo, MakeBlock, MakeSym} else {})
    case ReadOnly =>
      {ReadFile} + (if isDir then {ReadDir} else {})
    case ReadWrite =>
      {ReadFile, WriteFile}
      + (if isDir then {ReadDir, RemoveDir, RemoveFile, MakeChar, MakeDir, MakeReg,
                        MakeSock, MakeFifo, MakeBlock, MakeSym} else {})
  }

  /** The rights a writable level adds on a directory. */
  const DirectoryWriteRights: set<AccessFs> := {
    RemoveDir, RemoveFile, MakeChar, MakeDir, MakeReg, MakeSock, MakeFifo, MakeBlock, MakeSym
  }

  /** How the four levels relate: the executable levels are their plain
      counterparts plus Execute, and read-only sits below read-write. */
  lemma GrantLattice(isDir: bool)
    ensures Grant(ReadExecute, isDir) == Grant(ReadOnly, isDir) + {Execute}
    ensures Grant(ReadWriteExecute, isDir) == Grant(ReadWrite, isDir) + {Execute}
    ensures Grant(ReadOnly, isDir) <= Grant(ReadExecute, isDir)
    ensures Grant(ReadOnly, isDir) <= Grant(ReadWrite, isDir) <= Grant(ReadWriteExecute, isDir)
  {
  }

  /** Read-write on a file is exactly read and write; on a directory it also
      lists entries and creates and removes every kind of entry. */
  lemma GrantReadWrite(isDir: bool)
    ensures !isDir ==> Grant(ReadWrite, isDir) == {ReadFile, WriteFile}
    ensures isDir ==> Grant(ReadWrite, isDir) == {ReadFile, WriteFile, ReadDir} + DirectoryWriteRights
  {
  }

  /** Read-only is exactly ReadFile, plus ReadDir on a directory. */
  lemma GrantReadOnly(isDir: bool)
    ensures Grant(ReadOnly, isDir) == if isDir then {ReadFile, ReadDir} else {ReadFile}
  {
  }
}
