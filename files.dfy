/** The two filesystem checks of ExecMultithread, over an abstract view of the filesystem. */
module Files {
  import opened Records

  /** What `file_exists` and `is_dir` report: `existing` holds every path `file_exists`
      accepts (directories included), `directories` every path `is_dir` accepts. */
  datatype FileSystem = FileSystem(existing: set<string>, directories: set<string>)

  predicate FileExists(fs: FileSystem, path: string) {
    path in fs.existing
  }

  predicate IsDir(fs: FileSystem, path: string) {
    path in fs.directories
  }

  /** The worker script a target name stands for. */
  function WorkerScript(file: string): string {
    file + ".php"
  }

  /** checkFleExist: throws unless the worker script exists and is not a directory. */
  function CheckFileExists(file: string, fs: FileSystem): (r: Outcome)
    ensures r.Pass? <==> WorkerScript(file) in fs.existing - fs.directories
    ensures r.Fail? ==> r.error.message == "The file worker " + file + " does not exist"
  {
    var script := WorkerScript(file);
    if IsDir(fs, script) || !FileExists(fs, script) then
      Fail(ErrorException("The file worker " + file + " does not exist"))
    else
      Pass
  }

  /** The test of setProjectRoot: the new root must be a directory. */
  function CheckProjectRoot(path: string, fs: FileSystem): (r: Outcome)
    ensures r.Pass? <==> path in fs.directories
    ensures r.Fail? ==> r.error.message == "The project root directory does not exist"
  {
    if !IsDir(fs, path) then
      Fail(ErrorException("The project root directory does not exist"))
    else
      Pass
  }
}
