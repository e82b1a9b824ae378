/** IO/FileService.cs: listing a directory, with every failure turned into a `Fail` result. */
module Files {
  import opened Wrappers
  import opened DotNet
  import opened ReadingResults

  /** `Directory.GetFiles(path, pattern)` as an oracle: the matching files, or what it threw. */
  type FileLister = (string, string) -> Result<seq<string>, Exception>

  /** `TryGetFilesFromConfig(directoryPath, searchPattern = "*.*")` over a filesystem given by
      `Directory.Exists` and `Directory.GetFiles`. The checks run in order and the first that
      fails decides; nothing escapes. */
  function TryGetFilesFromConfig(
    directoryExists: string -> bool,
    getFiles: FileLister,
    directoryPath: Option<string>,
    searchPattern: string := "*.*")
    : (r: ResultOfReadingFile<seq<string>>)
    ensures r.Valid()
    ensures IsNullOrWhiteSpace(directoryPath) ==>
              r == ResultOfReadingFile.Fail(Exception(Argument, "Directory path is missing or empty."))
    ensures !IsNullOrWhiteSpace(directoryPath) && !directoryExists(directoryPath.value) ==>
              r.Error == Some(Exception(DirectoryNotFound, "Directory not found: " + directoryPath.value))
    ensures !IsNullOrWhiteSpace(directoryPath) && directoryExists(directoryPath.value)
            && getFiles(directoryPath.value, searchPattern) == Success([]) ==>
              r.Error == Some(Exception(FileNotFound, "No files found in directory: " + directoryPath.value
                                                    + " with pattern: " + searchPattern))
    ensures !IsNullOrWhiteSpace(directoryPath) && directoryExists(directoryPath.value)
            && getFiles(directoryPath.value, searchPattern).Failure? ==>
              r.Error == Some(getFiles(directoryPath.value, searchPattern).error)
    ensures r.Success ==> r.Result.value != []
  {
    if IsNullOrWhiteSpace(directoryPath) then
      ResultOfReadingFile.Fail(Exception(Argument, "Directory path is missing or empty."))
    else if !directoryExists(directoryPath.value) then
      ResultOfReadingFile.Fail(Exception(DirectoryNotFound, "Directory not found: " + directoryPath.value))
    else
      match getFiles(directoryPath.value, searchPattern)
      case Failure(ex) => ResultOfReadingFile.Fail(ex)
      case Success(files) =>
        if |files| == 0 then
          ResultOfReadingFile.Fail(Exception(FileNotFound, "No files found in directory: " + directoryPath.value
                                                         + " with pattern: " + searchPattern))
        else ResultOfReadingFile.Ok(files)
  }

  /** The call succeeds exactly when the path is usable, the directory exists and the
      listing is non-empty, and then it carries that listing unchanged. */
  lemma SuccessIffFilesFound(
    directoryExists: string -> bool, getFiles: FileLister, directoryPath: Option<string>, searchPattern: string)
    ensures var r := TryGetFilesFromConfig(directoryExists, getFiles, directoryPath, searchPattern);
      r.Success <==>
        && !IsNullOrWhiteSpace(directoryPath)
        && directoryExists(directoryPath.value)
        && getFiles(directoryPath.value, searchPattern).Success?
        && getFiles(directoryPath.value, searchPattern).value != []
    ensures var r := TryGetFilesFromConfig(directoryExists, getFiles, directoryPath, searchPattern);
      r.Success ==> r.Result == Some(getFiles(directoryPath.value, searchPattern).value)
  {
  }
}
