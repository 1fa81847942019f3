/** Profiles saved as one JSON file each in the application's profile directory. */
module ProfileService {
  import opened Basics
  import opened Models
  import opened FileStore

  type ProfileStore = Store<Profile>

  /** Writes the profile under its sanitized name, replacing any file there. */
  function SaveProfile(st: ProfileStore, p: Profile): (r: Result<ProfileStore, IoError>)
    ensures r.Ok? <==> st.directoryExists
    ensures r.Ok? ==> LoadProfile(r.value, p.name) == Some(p)
    ensures r.Ok? ==> forall n :: FileName(n) != FileName(p.name) ==> LoadProfile(r.value, n) == LoadProfile(st, n)
  {
    Save(st, p.name, p)
  }

  /** The profile whose file the name maps to, or None when there is none. */
  function LoadProfile(st: ProfileStore, name: string): (r: Option<Profile>)
    ensures r.Some? <==> FileName(name) in st.files
    ensures r.Some? ==> r.value == st.files[FileName(name)]
  {
    Load(st, name)
  }

  /** The stems of the profile files; every one of them loads. */
  function GetAllProfileNames(st: ProfileStore): (r: set<string>)
    requires Valid(st)
    ensures !st.directoryExists ==> r == {}
    ensures forall n :: n in r ==> LoadProfile(st, n).Some?
  {
    NamesAreLoadable(st, "", DefaultProfile);
    Names(st)
  }

  /** Removes the file the name maps to, if any. */
  function DeleteProfile(st: ProfileStore, name: string): (r: ProfileStore)
    ensures LoadProfile(r, name) == None
    ensures forall n :: FileName(n) != FileName(name) ==> LoadProfile(r, n) == LoadProfile(st, n)
  {
    Delete(st, name)
  }

  /** A saved profile is listed by its sanitized name, and deleting it unlists it again. */
  lemma SaveListsDeleteUnlists(st: ProfileStore, p: Profile)
    requires Valid(st) && st.directoryExists
    ensures SaveProfile(st, p).Ok?
    ensures Valid(SaveProfile(st, p).value)
    ensures GetAllProfileNames(SaveProfile(st, p).value) == GetAllProfileNames(st) + {Sanitize(InvalidChars(), p.name)}
    ensures GetAllProfileNames(DeleteProfile(SaveProfile(st, p).value, p.name)) == GetAllProfileNames(st) - {Sanitize(InvalidChars(), p.name)}
  {
    SaveThenDelete(st, p.name, p);
  }
}
