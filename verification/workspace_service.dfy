/** Workspaces saved as one JSON file each in the application's workspace directory. */
module WorkspaceService {
  import opened Basics
  import opened Models
  import opened FileStore

  type WorkspaceStore = Store<Workspace>

  /** Writes the workspace under its sanitized name, replacing any file there. */
  function SaveWorkspace(st: WorkspaceStore, w: Workspace): (r: Result<WorkspaceStore, IoError>)
    ensures r.Ok? <==> st.directoryExists
    ensures r.Ok? ==> LoadWorkspace(r.value, w.name) == Some(w)
    ensures r.Ok? ==> forall n :: FileName(n) != FileName(w.name) ==> LoadWorkspace(r.value, n) == LoadWorkspace(st, n)
  {
    Save(st, w.name, w)
  }

  /** The workspace whose file the name maps to, or None when there is none. */
  function LoadWorkspace(st: WorkspaceStore, name: string): (r: Option<Workspace>)
    ensures r.Some? <==> FileName(name) in st.files
    ensures r.Some? ==> r.value == st.files[FileName(name)]
  {
    Load(st, name)
  }

  /** The stems of the workspace files; every one of them loads. */
  function GetAllWorkspaceNames(st: WorkspaceStore): (r: set<string>)
    requires Valid(st)
    ensures !st.directoryExists ==> r == {}
    ensures forall n :: n in r ==> LoadWorkspace(st, n).Some?
  {
    NamesAreLoadable(st, "", DefaultWorkspace);
    Names(st)
  }

  /** Removes the file the name maps to, if any. */
  function DeleteWorkspace(st: WorkspaceStore, name: string): (r: WorkspaceStore)
    ensures LoadWorkspace(r, name) == None
    ensures forall n :: FileName(n) != FileName(name) ==> LoadWorkspace(r, n) == LoadWorkspace(st, n)
  {
    Delete(st, name)
  }

  /** A saved workspace is listed by its sanitized name, and deleting it unlists it again. */
  lemma SaveListsDeleteUnlists(st: WorkspaceStore, w: Workspace)
    requires Valid(st) && st.directoryExists
    ensures SaveWorkspace(st, w).Ok?
    ensures Valid(SaveWorkspace(st, w).value)
    ensures GetAllWorkspaceNames(SaveWorkspace(st, w).value) == GetAllWorkspaceNames(st) + {Sanitize(InvalidChars(), w.name)}
    ensures GetAllWorkspaceNames(DeleteWorkspace(SaveWorkspace(st, w).value, w.name)) == GetAllWorkspaceNames(st) - {Sanitize(InvalidChars(), w.name)}
  {
    SaveThenDelete(st, w.name, w);
  }
}
