/** The user registry of `app.py` (`user_data`): the enrollment checks of
    `process_enrollment` and the enrolled-speaker mapping that
    `get_enrolled_speakers_embeddings` builds from it. The JSON file behind the
    registry is replaced by an in-memory `Dict`. */
module Registry {
  import opened Wrappers
  import opened Dicts
  import opened NdArrays
  import opened Text
  import opened Ecapa

  /** `app.config['EMBEDDING_DIR']`. */
  const EMBEDDING_DIR: string := "saved_embeddings"

  /** The keys of `SUPPORTED_LANGUAGES`. */
  const SUPPORTED_LANGUAGES: set<string> := {"en", "hi", "ta"}

  /** One registry entry, `{"embedding_file": ..., "language": ...}`. Either field may
      be absent from a registry read back from disk. */
  datatype Entry = Entry(embeddingFile: Option<string>, language: Option<string>)

  /** Every way a request can be turned down. */
  datatype Failure =
    | MissingFields         // a form field or the audio upload is absent
    | MissingAudio
    | UsernameEmpty
    | InvalidUsername       // `secure_filename` left nothing
    | InvalidLanguage
    | UsernameExists
    | NoUsersEnrolled
    | PreprocessingFailed   // the audio could not be decoded
    | AudioTooShort         // fewer than one second of samples
    | EmptyAudio            // `extract_embedding` raised on empty audio
    | ExtractionFailed      // `extract_embedding` returned `None`
    | NotRecognized

  /** `os.path.join(dir, file)` on POSIX: an absolute `file` replaces `dir`; a relative
      one is appended to `dir` with exactly one separator in between (none after an
      empty `dir`). */
  function Join(dir: string, file: string): (p: string)
    ensures |file| > 0 && file[0] == '/' ==> p == file
    ensures (file == [] || file[0] != '/') ==>
              && |dir| + |file| <= |p| <= |dir| + |file| + 1
              && p[..|dir|] == dir && p[|p| - |file|..] == file
              && (dir != [] ==> p[|p| - |file| - 1] == '/')
    ensures (file == [] || file[0] != '/') && (dir == [] || dir[|dir| - 1] == '/') ==> p == dir + file
  {
    if |file| > 0 && file[0] == '/' then file
    else if dir == [] || dir[|dir| - 1] == '/' then dir + file
    else dir + "/" + file
  }

  /** A joined path ends with its last component. */
  lemma JoinEndsWith(dir: string, file: string, suffix: string)
    requires EndsWith(file, suffix)
    ensures EndsWith(Join(dir, file), suffix)
  {
    var p := Join(dir, file);
    var prefix := p[..|p| - |file|];
    assert p == prefix + file;
    assert p[|p| - |suffix|..] == file[|file| - |suffix|..];
  }

  /** The path the embedding of a registry entry is stored under. */
  function EmbeddingPath(file: string): string {
    Join(EMBEDDING_DIR, file)
  }

  /** `user_data.get(user, {}).get('language', 'en')`. */
  function LanguageOf(registry: Dict<Entry>, user: string): (lang: string)
    ensures user in registry.values && registry.values[user].language.Some? ==>
              lang == registry.values[user].language.value
    ensures user !in registry.values || registry.values[user].language.None? ==> lang == "en"
  {
    if user in registry.values && registry.values[user].language.Some? then
      registry.values[user].language.value
    else
      "en"
  }

  /** What an accepted enrollment form holds after normalisation. */
  datatype Admitted = Admitted(username: string, safeName: string, language: string)

  /** The checks `process_enrollment` makes before it touches the audio, in its order:
      all fields present, username non-empty after `strip().lower()`, sanitised username
      non-empty, language supported (after `strip()`), sanitised username not taken. */
  function CheckEnrollment(audioPresent: bool, username: Option<string>, language: Option<string>,
                           registry: Dict<Entry>, secureFilename: string -> string): (r: Result<Admitted, Failure>)
    ensures r.Ok? <==>
      && audioPresent && username.Some? && language.Some?
      && Normalize(username.value) != []
      && secureFilename(Normalize(username.value)) != []
      && Strip(language.value) in SUPPORTED_LANGUAGES
      && secureFilename(Normalize(username.value)) !in registry.values
    ensures r.Ok? ==> r.value == Admitted(Normalize(username.value), secureFilename(Normalize(username.value)),
                                          Strip(language.value))
    ensures r == Err(MissingFields) <==> !audioPresent || username.None? || language.None?
    ensures r == Err(UsernameEmpty) ==>
              username.Some? && forall k | 0 <= k < |username.value| :: IsSpace(username.value[k])
    ensures r == Err(InvalidUsername) ==>
              username.Some? && Normalize(username.value) != [] && secureFilename(Normalize(username.value)) == []
    ensures r == Err(InvalidLanguage) ==>
              && username.Some? && language.Some?
              && Normalize(username.value) != [] && secureFilename(Normalize(username.value)) != []
              && Strip(language.value) !in SUPPORTED_LANGUAGES
    ensures r == Err(UsernameExists) ==>
              && username.Some? && language.Some?
              && Normalize(username.value) != []
              && Strip(language.value) in SUPPORTED_LANGUAGES
              && secureFilename(Normalize(username.value)) != []
              && secureFilename(Normalize(username.value)) in registry.values
    ensures r.Err? ==> r.error in {MissingFields, UsernameEmpty, InvalidUsername, InvalidLanguage, UsernameExists}
  {
    if !audioPresent || username.None? || language.None? then Err(MissingFields)
    else
      var name := Normalize(username.value);
      var lang := Strip(language.value);
      NormalizeEmptyIffBlank(username.value);
      if name == [] then Err(UsernameEmpty)
      else
        var safeName := secureFilename(name);
        if safeName == [] then Err(InvalidUsername)
        else if lang !in SUPPORTED_LANGUAGES then Err(InvalidLanguage)
        else if safeName in registry.values then Err(UsernameExists)
        else Ok(Admitted(name, safeName, lang))
  }

  /** The registry entry a successful enrollment writes: it names the admitted language
      and a file name ending in ".npy", so the path it leads to is the very path
      `np.save` wrote the embedding to. */
  function NewEntry(admitted: Admitted): (e: Entry)
    ensures e.language == Some(admitted.language)
    ensures e.embeddingFile == Some(admitted.safeName + ".npy")
    ensures e.embeddingFile.Some? && EndsWith(e.embeddingFile.value, ".npy")
    ensures e.embeddingFile.Some? ==>
              NpyPath(EmbeddingPath(e.embeddingFile.value)) == EmbeddingPath(e.embeddingFile.value)
  {
    assert EndsWith(admitted.safeName + ".npy", ".npy");
    JoinEndsWith(EMBEDDING_DIR, admitted.safeName + ".npy", ".npy");
    Entry(Some(admitted.safeName + ".npy"), Some(admitted.language))
  }

  /** The embedding `get_enrolled_speakers_embeddings` obtains for `user`: `None` when
      the entry has no `embedding_file` or `load_embedding` rejects the file. */
  function EmbeddingOf(entries: map<string, Entry>, files: map<string, FileContent>, user: string): (r: Option<NdArray>)
    ensures r.Some? <==>
              && user in entries && entries[user].embeddingFile.Some?
              && Loaded(files, EmbeddingPath(entries[user].embeddingFile.value)).Some?
    ensures r.Some? ==> r.value.shape == [EMBEDDING_SIZE] && |r.value.data| == EMBEDDING_SIZE
  {
    if user in entries && entries[user].embeddingFile.Some? then
      Loaded(files, EmbeddingPath(entries[user].embeddingFile.value))
    else
      None
  }

  /** The `speakers` mapping after the loop of `get_enrolled_speakers_embeddings` has
      visited `keys`, in registry order. */
  function EnrolledFrom(keys: seq<string>, entries: map<string, Entry>, files: map<string, FileContent>): (d: Dict<NdArray>)
    ensures d.Valid()
    decreases |keys|
  {
    if keys == [] then Empty()
    else
      var speakers := EnrolledFrom(keys[..|keys| - 1], entries, files);
      var user := keys[|keys| - 1];
      match EmbeddingOf(entries, files, user)
      case Some(embedding) => speakers.Put(user, embedding)
      case None => speakers
  }

  /** The enrolled mapping of a registry. */
  function EnrolledSpeakers(registry: Dict<Entry>, files: map<string, FileContent>): Dict<NdArray> {
    EnrolledFrom(registry.keys, registry.values, files)
  }

  /** The registry keys whose embedding loads, in registry order. */
  function Loadable(keys: seq<string>, entries: map<string, Entry>, files: map<string, FileContent>): seq<string>
    decreases |keys|
  {
    if keys == [] then []
    else
      var init := Loadable(keys[..|keys| - 1], entries, files);
      var user := keys[|keys| - 1];
      if EmbeddingOf(entries, files, user).Some? then init + [user] else init
  }

  /** Over a registry with distinct keys, the enrolled speakers are exactly the
      loadable registry keys, in registry order. */
  lemma {:induction false} EnrolledInRegistryOrder(keys: seq<string>, entries: map<string, Entry>,
                                                   files: map<string, FileContent>)
    requires forall i, j | 0 <= i < j < |keys| :: keys[i] != keys[j]
    ensures EnrolledFrom(keys, entries, files).keys == Loadable(keys, entries, files)
    decreases |keys|
  {
    if keys != [] {
      var init := keys[..|keys| - 1];
      var user := keys[|keys| - 1];
      EnrolledInRegistryOrder(init, entries, files);
      EnrolledMember(init, entries, files, user);
    }
  }

  /** A user is in the enrolled mapping exactly when it is a registry key whose
      embedding loads, and then the mapping holds that embedding, of shape (192,). */
  lemma {:induction false} EnrolledMember(keys: seq<string>, entries: map<string, Entry>,
                                          files: map<string, FileContent>, user: string)
    ensures var d := EnrolledFrom(keys, entries, files);
      user in d.values <==> user in keys && EmbeddingOf(entries, files, user).Some?
    ensures var d := EnrolledFrom(keys, entries, files);
      user in d.values ==> d.values[user] == EmbeddingOf(entries, files, user).value
                           && d.values[user].shape == [EMBEDDING_SIZE]
    decreases |keys|
  {
    if keys != [] {
      var init := keys[..|keys| - 1];
      EnrolledMember(init, entries, files, user);
      assert keys == init + [keys[|keys| - 1]];
    }
  }

  /** Every user of the enrolled mapping is a registry key with an `embedding_file`. */
  lemma EnrolledKeysAreRegistered(registry: Dict<Entry>, files: map<string, FileContent>, user: string)
    requires registry.Valid()
    requires user in EnrolledSpeakers(registry, files).values
    ensures user in registry.values && registry.values[user].embeddingFile.Some?
    ensures Loaded(files, EmbeddingPath(registry.values[user].embeddingFile.value)) ==
              Some(EnrolledSpeakers(registry, files).values[user])
  {
    EnrolledMember(registry.keys, registry.values, files, user);
  }

  /** After a successful enrollment whose two writes both went through, the new user is
      the last entry of the enrolled mapping and carries the extracted embedding. */
  lemma EnrollmentMakesUserLoadable(registry: Dict<Entry>, files: map<string, FileContent>,
                                    admitted: Admitted, embedding: NdArray)
    requires registry.Valid() && admitted.safeName !in registry.values
    requires embedding.shape == [EMBEDDING_SIZE]
    ensures var registry' := registry.Put(admitted.safeName, NewEntry(admitted));
      var files' := files[NpyPath(EmbeddingPath(admitted.safeName + ".npy")) := NpyFile(embedding)];
      var d := EnrolledSpeakers(registry', files');
      && admitted.safeName in d.values
      && d.values[admitted.safeName] == embedding
      && d.keys[|d.keys| - 1] == admitted.safeName
  {
    var registry' := registry.Put(admitted.safeName, NewEntry(admitted));
    var file := admitted.safeName + ".npy";
    assert EndsWith(file, ".npy");
    JoinEndsWith(EMBEDDING_DIR, file, ".npy");
    var files' := files[NpyPath(EmbeddingPath(file)) := NpyFile(embedding)];
    assert EmbeddingOf(registry'.values, files', admitted.safeName) == Some(embedding);
    assert registry'.keys == registry.keys + [admitted.safeName];
    assert registry'.keys[..|registry'.keys| - 1] == registry.keys;
    EnrolledMember(registry.keys, registry'.values, files', admitted.safeName);
  }

  /** When the embedding write of an enrollment fails but the registry write succeeds
      (and nothing was stored at that path before), the user is registered yet absent
      from the enrolled mapping, and enrolling the same name again is refused. */
  lemma LostEmbeddingLocksOutUser(registry: Dict<Entry>, files: map<string, FileContent>,
                                  admitted: Admitted, username: string, language: string,
                                  secureFilename: string -> string)
    requires registry.Valid()
    requires CheckEnrollment(true, Some(username), Some(language), registry, secureFilename) == Ok(admitted)
    requires EmbeddingPath(admitted.safeName + ".npy") !in files
    ensures var registry' := registry.Put(admitted.safeName, NewEntry(admitted));
      && admitted.safeName in registry'.values
      && admitted.safeName !in EnrolledSpeakers(registry', files).values
      && CheckEnrollment(true, Some(username), Some(language), registry', secureFilename) == Err(UsernameExists)
  {
    var registry' := registry.Put(admitted.safeName, NewEntry(admitted));
    EnrolledMember(registry'.keys, registry'.values, files, admitted.safeName);
  }

  /** Enrolling a username a second time is refused once the first enrollment is in the
      registry, whatever supported language the second request names. */
  lemma SecondEnrollmentRejected(registry: Dict<Entry>, admitted: Admitted, username: string,
                                 language: string, language2: string, secureFilename: string -> string)
    requires registry.Valid()
    requires CheckEnrollment(true, Some(username), Some(language), registry, secureFilename) == Ok(admitted)
    requires Strip(language2) in SUPPORTED_LANGUAGES
    ensures var registry' := registry.Put(admitted.safeName, NewEntry(admitted));
      CheckEnrollment(true, Some(username), Some(language2), registry', secureFilename) == Err(UsernameExists)
  {
  }
}
