/** The guards inside three operators of aes/workflow/operators.py:
    `DownloaderAPI` and `ExtractZip` act only when forced or when their
    destination is missing, and `LoadCSV` retries a read once with
    `encoding_errors="ignore"`. The file system is the existing directories,
    the existing regular files and the open file descriptors; the download
    command, the unzip and the CSV read are given. */
module Operators {
  import opened Wrappers
  import opened Workflow

  /** Python truthiness of `params.get(key)`; a missing key reads as `None`. */
  predicate Truthy(v: Option<Setting>)
  {
    match v
    case None => false
    case Some(Null) => false
    case Some(Text(s)) => s != ""
    case Some(Flag(b)) => b
  }

  /** A side effect an operator asks for. */
  datatype Action =
    | MakeDirs(path: string)
    | RunCommand(command: Option<Setting>)
    | ExtractAll(source: Option<Setting>, destination: string)

  function Get(params: Params, key: string): Option<Setting>
  {
    if key in params then Some(params[key]) else None
  }

  /** What `os.path.exists` and `os.makedirs` can see: the existing
      directories, the existing regular files, and the open file
      descriptors, which `os.stat` consults when it is given an integer. */
  datatype Disk = Disk(dirs: set<string>, files: set<string>, descriptors: set<nat>)

  /** `os.path.exists` of a string path: the empty path never exists. */
  predicate Exists(disk: Disk, path: string)
  {
    path != "" && (path in disk.dirs || path in disk.files)
  }

  /** The descriptor `os.stat` consults for a `bool` path: `int(b)`. */
  function Descriptor(b: bool): nat
  {
    if b then 1 else 0
  }

  /** `self._force or not os.path.exists(self._destination)`. The `or`
      short-circuits, so a forced operator never looks at the destination.
      `os.path.exists` of a string asks whether the path exists; of a `bool`
      (an `int` to `os.stat`) whether that file descriptor is open; of `None`
      it raises `TypeError`. */
  function Guard(params: Params, disk: Disk): (r: Result<bool>)
    ensures Truthy(Get(params, "force")) ==> r == Ok(true)
    ensures Get(params, "destination").Some? && Get(params, "destination").value.Text? ==>
              r == Ok(Truthy(Get(params, "force")) || !Exists(disk, Get(params, "destination").value.text))
    ensures Get(params, "destination").Some? && Get(params, "destination").value.Flag? ==>
              r == Ok(Truthy(Get(params, "force")) || Descriptor(Get(params, "destination").value.on) !in disk.descriptors)
    ensures r.Err? <==> !Truthy(Get(params, "force")) && (Get(params, "destination").None? || Get(params, "destination").value.Null?)
    ensures r.Err? ==> r.error == TypeError
  {
    if Truthy(Get(params, "force")) then Ok(true)
    else
      match Get(params, "destination")
      case Some(Text(destination)) => Ok(!Exists(disk, destination))
      case Some(Flag(b)) => Ok(Descriptor(b) !in disk.descriptors)
      case _ => Err(TypeError)
  }

  /** `os.makedirs(destination, exist_ok=True)`: the empty path raises
      `FileNotFoundError`, an existing regular file `FileExistsError`, and
      anything but a string `TypeError`; otherwise the directory is made.
      None of these is caught. */
  function MakeDirsError(destination: Option<Setting>, disk: Disk): Option<Error>
  {
    match destination
    case Some(Text(path)) =>
      if path == "" then Some(FileNotFound)
      else if path in disk.files then Some(FileExists)
      else None
    case _ => Some(TypeError)
  }

  /** `DownloaderAPI.execute`: make the destination and run the command, or
      do nothing. Only a failing command is caught, and it is only logged;
      the operator never returns data. */
  function Download(params: Params, disk: Disk): (r: Result<seq<Action>>)
  {
    match Guard(params, disk)
    case Err(e) => Err(e)
    case Ok(act) =>
      if !act then Ok([])
      else match MakeDirsError(Get(params, "destination"), disk)
        case Some(e) => Err(e)
        case None => Ok([MakeDirs(Get(params, "destination").value.text), RunCommand(Get(params, "command"))])
  }

  /** `ExtractZip.execute`: make the destination and extract the archive
      into it, or do nothing. */
  function Unzip(params: Params, disk: Disk): (r: Result<seq<Action>>)
  {
    match Guard(params, disk)
    case Err(e) => Err(e)
    case Ok(act) =>
      if !act then Ok([])
      else match MakeDirsError(Get(params, "destination"), disk)
        case Some(e) => Err(e)
        case None =>
          var destination := Get(params, "destination").value.text;
          Ok([MakeDirs(destination), ExtractAll(Get(params, "source"), destination)])
  }

  /** The disk after the actions: each `MakeDirs` adds its directory. */
  function Perform(actions: seq<Action>, disk: Disk): Disk
  {
    if actions == [] then disk
    else if actions[0].MakeDirs? then Perform(actions[1..], disk.(dirs := disk.dirs + {actions[0].path}))
    else Perform(actions[1..], disk)
  }

  lemma {:induction false} PerformKeeps(actions: seq<Action>, disk: Disk)
    ensures disk.dirs <= Perform(actions, disk).dirs
    ensures Perform(actions, disk).files == disk.files
    ensures Perform(actions, disk).descriptors == disk.descriptors
  {
    if actions != [] {
      if actions[0].MakeDirs? {
        PerformKeeps(actions[1..], disk.(dirs := disk.dirs + {actions[0].path}));
      } else {
        PerformKeeps(actions[1..], disk);
      }
    }
  }

  /** With a string destination, both operators act exactly when forced or
      when the destination does not exist; acting on the empty path raises
      `FileNotFoundError` and acting on a regular file `FileExistsError`,
      and otherwise the first action makes the destination. */
  lemma ActsOnlyWhenNeeded(params: Params, disk: Disk)
    requires Get(params, "destination").Some? && Get(params, "destination").value.Text?
    ensures var destination := Get(params, "destination").value.text;
      var acts := Truthy(Get(params, "force")) || !Exists(disk, destination);
      && (!acts ==> Download(params, disk) == Ok([]) && Unzip(params, disk) == Ok([]))
      && (acts && destination == "" ==>
            Download(params, disk) == Err(FileNotFound) && Unzip(params, disk) == Err(FileNotFound))
      && (acts && destination != "" && destination in disk.files ==>
            Download(params, disk) == Err(FileExists) && Unzip(params, disk) == Err(FileExists))
      && (acts && destination != "" && destination !in disk.files ==>
            && Download(params, disk).Ok? && Download(params, disk).value != []
            && Download(params, disk).value[0] == MakeDirs(destination)
            && Unzip(params, disk).Ok? && Unzip(params, disk).value != []
            && Unzip(params, disk).value[0] == MakeDirs(destination))
  {
  }

  /** An empty destination never exists, and `os.makedirs("")` raises:
      every run of either operator fails, forced or not, on any disk. */
  lemma EmptyDestinationRaises(params: Params, disk: Disk)
    requires Get(params, "destination") == Some(Text(""))
    ensures Download(params, disk) == Err(FileNotFound)
    ensures Unzip(params, disk) == Err(FileNotFound)
  {
  }

  /** With any other destination, neither operator ever acts: a missing or
      `None` destination raises `TypeError`, and so does a `bool` one when
      forced or when its descriptor is closed; a `bool` destination whose
      descriptor is open is taken to exist, and the operator does nothing. */
  lemma NonStringDestination(params: Params, disk: Disk)
    requires !(Get(params, "destination").Some? && Get(params, "destination").value.Text?)
    ensures Download(params, disk) == Unzip(params, disk)
    ensures Download(params, disk).Ok? <==>
              && !Truthy(Get(params, "force")) && Get(params, "destination").Some?
              && Get(params, "destination").value.Flag?
              && Descriptor(Get(params, "destination").value.on) in disk.descriptors
    ensures Download(params, disk).Ok? ==> Download(params, disk).value == []
    ensures Download(params, disk).Err? ==> Download(params, disk).error == TypeError
  {
  }

  /** Without `force`, a second run after a successful first one does
      nothing: the first one created the destination. */
  lemma SecondRunSkips(params: Params, disk: Disk)
    requires !Truthy(Get(params, "force")) && Download(params, disk).Ok? && Unzip(params, disk).Ok?
    ensures Download(params, Perform(Download(params, disk).value, disk)) == Ok([])
    ensures Unzip(params, Perform(Unzip(params, disk).value, disk)) == Ok([])
  {
    PerformKeeps(Download(params, disk).value, disk);
    PerformKeeps(Unzip(params, disk).value, disk);
    if Download(params, disk).value != [] {
      var destination := Get(params, "destination").value.text;
      var acts := Download(params, disk).value;
      assert acts[1..][1..] == [];
      PerformKeeps(acts[1..], disk.(dirs := disk.dirs + {destination}));
    }
    if Unzip(params, disk).value != [] {
      var destination := Get(params, "destination").value.text;
      var acts := Unzip(params, disk).value;
      assert acts[1..][1..] == [];
      PerformKeeps(acts[1..], disk.(dirs := disk.dirs + {destination}));
    }
  }

  /** What `pd.read_csv(filepath, encoding_errors=mode)` returns. */
  type Reader<!T> = (Option<Setting>, Setting) -> Result<T>

  /** `LoadCSV.execute`: the frame read, with the `encoding_errors` modes
      tried in order. */
  function LoadCsv<T>(params: Params, read: Reader<T>): (r: (Result<T>, seq<Setting>))
  {
    var path := Get(params, "filepath");
    var mode := if "encoding_errors" in params then params["encoding_errors"] else Text("strict");
    var retry := if "retry_ignore_encoding_errors" in params then Some(params["retry_ignore_encoding_errors"]) else Some(Flag(true));
    match read(path, mode)
    case Ok(frame) => (Ok(frame), [mode])
    case Err(UnicodeError) =>
      if Truthy(retry) then (read(path, Text("ignore")), [mode, Text("ignore")])
      else (Err(UnicodeError), [mode])
    case Err(e) => (Err(e), [mode])
  }

  /** At most one retry, only after a `UnicodeError` and only with the retry
      flag set (it is by default); the retry ignores encoding errors and its
      outcome is final. Any other error, `FileNotFoundError` included, is
      raised again at once. */
  lemma LoadCsvRetries<T>(params: Params, read: Reader<T>)
    ensures var (r, modes) := LoadCsv(params, read);
      var first := if "encoding_errors" in params then params["encoding_errors"] else Text("strict");
      var retry := "retry_ignore_encoding_errors" !in params || Truthy(Some(params["retry_ignore_encoding_errors"]));
      && 1 <= |modes| <= 2 && modes[0] == first
      && (|modes| == 2 <==> read(Get(params, "filepath"), first) == Err(UnicodeError) && retry)
      && (|modes| == 2 ==> modes[1] == Text("ignore") && r == read(Get(params, "filepath"), Text("ignore")))
      && (|modes| == 1 ==> r == read(Get(params, "filepath"), first))
      && (read(Get(params, "filepath"), first) == Err(FileNotFound) ==> r == Err(FileNotFound))
  {
  }
}
