/** The fixed configuration both copiers share, and the observable effects of
    their calls into the operating system: child processes they launch,
    directories they create and lines they append to the log file. */
module Environment {
  import opened Text

  const DriveA: string := "I:"
  const DriveB: string := "J:"
  const TargetDir: string := "C:\\Archivos_Copia\\"
  const LogFile: string := "C:\\Logs_Copia_CDs.txt"

  /** Robocopy exit codes up to this one mean success, possibly with skipped or extra files. */
  const SuccessCodeLimit: int := 8

  /** What a synchronous command gave back: its standard output, or a thrown error. */
  datatype QueryResult = Output(text: string) | QueryFailed

  /** A child process one of the copiers launches. */
  datatype Command =
    | MediaQuery(drive: string)
    | LabelQuery(drive: string)
    | Robocopy(drive: string, targetPath: string)
    | Eject(drive: string)

  /** The command line a `Command` is launched with. */
  function CommandLine(c: Command): string {
    match c
    case MediaQuery(drive) => "wmic cdrom " + drive + " get MediaLoaded"
    case LabelQuery(drive) => "wmic logicaldisk where DeviceID=\"" + drive + "\" get VolumeName /value"
    case Robocopy(drive, targetPath) =>
      "robocopy " + drive + "\\ \"" + targetPath + "\" /E /R:3 /W:5 /TEE /LOG+:" + LogFile
    case Eject(drive) => "nircmd.exe cdrom open " + drive
  }

  /** Every command line names the drive it acts on. */
  lemma CommandLineNamesDrive(c: Command)
    ensures Contains(CommandLine(c), c.drive)
  {
    var line := CommandLine(c);
    var at := match c
      case MediaQuery(_) => 11
      case LabelQuery(_) => 33
      case Robocopy(_, _) => 9
      case Eject(_) => 22;
    assert line[at..at + |c.drive|] == c.drive;
    assert OccursAt(line, c.drive, at);
    ContainsIff(line, c.drive);
  }

  /** One call out of the process, in the order it happens. */
  datatype Effect =
    | RunCommand(command: Command)
    | MakeDir(path: string)
    | AppendLog(text: string)

  /** Effects appended one after another form one trace. */
  lemma ConcatAssociates<T>(a: seq<T>, b: seq<T>, c: seq<T>)
    ensures a + b + c == a + (b + c)
  {
  }

  /** The same for four pieces. */
  lemma AppendAssociates<T>(a: seq<T>, b: seq<T>, c: seq<T>, d: seq<T>)
    ensures a + b + c + d == a + (b + (c + d))
  {
  }

  /** The log header written when a copying session starts; `localTime` is `new Date().toLocaleString()`. */
  function SessionHeader(localTime: string): string {
    "\n--- INICIO DE PROCESO DE COPIA MASIVA: " + localTime + " ---\n"
  }

  /** The bulk copy succeeded, so the tray is opened. */
  predicate IsCopySuccess(code: int) {
    code <= SuccessCodeLimit
  }
}
