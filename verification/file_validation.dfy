/** The checks a file chooser page applies to the chosen file: the basic check of the
    import/export wizards, the import page's refusal of directories, and the export page's
    decision tree over the target and its parent directory. */
module FileValidation {
  import opened Wrappers

  /** What the checks ask of a directory. */
  datatype Directory = Directory(path: string, present: bool, canWrite: bool)

  /** What the checks ask of a file; `parent` is `None` when `getParentFile` is null. */
  datatype File = File(path: string, present: bool, canRead: bool, canWrite: bool, isDirectory: bool,
                       parent: Option<Directory>)

  const FileDoesNotExist: string := "File does not exist"
  const FileReadError: string := "File read error"
  const ItIsADirectory: string := "It is a directory"

  /** `basicValidateFile`: the file when it is there and readable. */
  function BasicValidateFile(file: Option<File>): (r: Result<File, string>)
    ensures r.Ok? <==> file.Some? && file.value.present && file.value.canRead
    ensures r.Ok? ==> r.value == file.value
    ensures r.Err? && (file.None? || !file.value.present) ==> r.error == FileDoesNotExist
    ensures r.Err? && file.Some? && file.value.present ==> r.error == FileReadError
  {
    if file.None? then Err(FileDoesNotExist)
    else if !file.value.present then Err(FileDoesNotExist)
    else if !file.value.canRead then Err(FileReadError)
    else Ok(file.value)
  }

  /** `ImportFileChooserPage.validateFile`: the basic check, then no directories. */
  function ImportValidateFile(file: Option<File>): (r: Result<File, string>)
    ensures r.Ok? <==> BasicValidateFile(file).Ok? && !file.value.isDirectory
    ensures r.Ok? ==> r.value == file.value
    ensures BasicValidateFile(file).Err? ==> r == BasicValidateFile(file)
    ensures BasicValidateFile(file).Ok? && file.value.isDirectory ==> r == Err(ItIsADirectory)
  {
    var f :- BasicValidateFile(file);
    if f.isDirectory then Err(ItIsADirectory) else Ok(f)
  }

  /** A message of the export page: a text, a localized message about a path, or the
      NullPointerException raised for a file without a parent directory. */
  datatype ExportError = Text(text: string) | Localized(key: string, path: string) | NoParent

  const DirectoryDoesNotExist: string := "fileChooser.error.directoryDoesNotExists"
  const DirectoryIsReadOnly: string := "fileChooser.error.directoryIsReadOnly"
  const FileIsReadOnly: string := "fileChooser.error.fileIsReadOnly"
  const FileExists: string := "fileChooser.warning.fileExists"

  /** The verdict of `ExportFileChooserPage.validateFile` when the overwrite box is `checked`:
      a target is accepted exactly when it is a new file in a writable directory, or an
      existing writable one that may be overwritten. */
  function ExportVerdict(file: Option<File>, checked: bool): (r: Result<File, ExportError>)
    ensures r.Ok? <==>
      file.Some? &&
      ((!file.value.present && file.value.parent.Some? && file.value.parent.value.present
          && file.value.parent.value.canWrite)
       || (file.value.present && file.value.canWrite && checked))
    ensures r.Ok? ==> file.Some? && r.value == file.value
    ensures file.None? ==> r == Err(Text("File cannot be null"))
    ensures file.Some? && !file.value.present && file.value.parent.None? ==> r == Err(NoParent)
    ensures file.Some? && !file.value.present && file.value.parent.Some? && !file.value.parent.value.present ==>
      r == Err(Localized(DirectoryDoesNotExist, file.value.parent.value.path))
    ensures file.Some? && !file.value.present && file.value.parent.Some? ==>
      var parent := file.value.parent.value;
      parent.present && !parent.canWrite ==> r == Err(Localized(DirectoryIsReadOnly, parent.path))
    ensures file.Some? && file.value.present && !file.value.canWrite && file.value.isDirectory ==>
      r == Err(Localized(DirectoryIsReadOnly, file.value.path))
    ensures file.Some? && file.value.present && !file.value.canWrite && !file.value.isDirectory ==>
      r == Err(Localized(FileIsReadOnly, file.value.path))
    ensures file.Some? && file.value.present && file.value.canWrite && !checked ==>
      r == Err(Localized(FileExists, ""))
  {
    if file.None? then Err(Text("File cannot be null"))
    else
      var f := file.value;
      if !f.present then
        if f.parent.None? then Err(NoParent)
        else if !f.parent.value.present then Err(Localized(DirectoryDoesNotExist, f.parent.value.path))
        else if !f.parent.value.canWrite then Err(Localized(DirectoryIsReadOnly, f.parent.value.path))
        else Ok(f)
      else if !f.canWrite then
        if f.isDirectory then Err(Localized(DirectoryIsReadOnly, f.path))
        else Err(Localized(FileIsReadOnly, f.path))
      else if !checked then Err(Localized(FileExists, ""))
      else Ok(f)
  }

  /** The overwrite box may be ticked only for an existing writable file. */
  function OverwriteWritableAfter(file: File): bool {
    file.present && file.canWrite
  }

  /** The export file page, reduced to the state its check touches: the overwrite option's
      writable flag and whether it is ticked. */
  class ExportFileChooserPage {
    var overwriteWritable: bool
    var overwriteChecked: bool

    constructor(checked: bool)
      ensures overwriteWritable && overwriteChecked == checked
    {
      overwriteWritable := true;
      overwriteChecked := checked;
    }

    /** `validateFile`: disables the overwrite option, re-enables it for an existing
        writable file, and answers by the decision tree. */
    method ValidateFile(file: Option<File>) returns (r: Result<File, ExportError>)
      modifies this
      ensures r == ExportVerdict(file, old(overwriteChecked))
      ensures overwriteChecked == old(overwriteChecked)
      ensures file.None? ==> overwriteWritable == old(overwriteWritable)
      ensures file.Some? ==> overwriteWritable == OverwriteWritableAfter(file.value)
    {
      if file.None? {
        return Err(Text("File cannot be null"));
      }
      var f := file.value;
      overwriteWritable := false;
      if !f.present {
        if f.parent.None? {
          return Err(NoParent);
        }
        var parent := f.parent.value;
        if !parent.present {
          return Err(Localized(DirectoryDoesNotExist, parent.path));
        }
        if !parent.canWrite {
          return Err(Localized(DirectoryIsReadOnly, parent.path));
        }
      } else if !f.canWrite {
        if f.isDirectory {
          return Err(Localized(DirectoryIsReadOnly, f.path));
        } else {
          return Err(Localized(FileIsReadOnly, f.path));
        }
      } else {
        overwriteWritable := true;
        if !overwriteChecked {
          return Err(Localized(FileExists, ""));
        }
      }
      return Ok(f);
    }
  }
}
