/** The two request handlers of `app.py`, `process_enrollment` and `process_login`,
    over the registry, the embedding files and the speaker-embedding model. Decoding the
    uploaded audio is a foreign step: its result arrives as an `Upload`. */
module App {
  import opened Wrappers
  import opened Dicts
  import opened NdArrays
  import opened Ecapa
  import opened Registry
  import opened Identification

  /** `SAMPLE_RATE` of the audio decoder: every decoded waveform is at 16 kHz. */
  const SAMPLE_RATE: int := 16000

  /** `SAMPLE_RATE * min_duration_sec` with `min_duration_sec = 1.0`. */
  const MIN_SAMPLES: nat := 16000

  /** The `audio_data` part of a request: absent, present but not decodable
      (`preprocess_audio_from_bytes` returned `None`), or a mono waveform at
      `SAMPLE_RATE`. */
  datatype Upload = Missing | Undecodable | Waveform(samples: seq<real>)

  /** The JSON answer of `process_enrollment`, without its HTTP status. */
  datatype EnrollOutcome = Enrolled(username: string) | EnrollRefused(failure: Failure)

  /** The JSON answer of `process_login`, without its HTTP status and session update. */
  datatype LoginOutcome = Welcome(user: string, distance: real, language: string) | LoginRefused(failure: Failure)

  class SpeakerApp {
    /** `model`, the one ECAPA-TDNN instance. */
    const model: EcapaTdnn
    /** The file system holding the embedding files. */
    const fs: FileStore
    /** `werkzeug.utils.secure_filename`. */
    const secureFilename: string -> string
    /** `scipy.spatial.distance.cosine`; `None` when it raises or gives NaN. */
    const cosine: (NdArray, NdArray) -> Option<real>
    /** The registry, as `load_user_data` reads it and `save_user_data` writes it. */
    var userData: Dict<Entry>

    ghost predicate Valid()
      reads this
    {
      userData.Valid()
    }

    /** A fresh service: a missing registry file reads as the empty registry. */
    constructor (model: EcapaTdnn, fs: FileStore, secureFilename: string -> string,
                 cosine: (NdArray, NdArray) -> Option<real>)
      ensures Valid() && userData == Empty()
      ensures this.model == model && this.fs == fs
      ensures this.secureFilename == secureFilename && this.cosine == cosine
    {
      this.model := model;
      this.fs := fs;
      this.secureFilename := secureFilename;
      this.cosine := cosine;
      this.userData := Empty();
    }

    /** `get_enrolled_speakers_embeddings`: the registry users, in registry order, whose
        entry names an embedding file that loads with shape (192,), each with that
        embedding. */
    method GetEnrolledSpeakers() returns (speakers: Dict<NdArray>)
      requires Valid()
      ensures speakers == EnrolledSpeakers(userData, fs.files)
      ensures speakers.Valid()
      ensures forall u | u in speakers.values ::
                u in userData.values && speakers.values[u].shape == [EMBEDDING_SIZE]
    {
      speakers := Empty();
      var users := userData.keys;
      for i := 0 to |users|
        invariant speakers == EnrolledFrom(users[..i], userData.values, fs.files)
      {
        assert users[..i + 1][..i] == users[..i];
        var username := users[i];
        var data := userData.values[username];
        if data.embeddingFile.Some? {
          var path := EmbeddingPath(data.embeddingFile.value);
          var embedding := model.LoadEmbedding(path, fs);
          if embedding.Some? {
            speakers := speakers.Put(username, embedding.value);
          }
        }
      }
      assert users[..|users|] == users;
      forall u | u in speakers.values
        ensures u in userData.values && speakers.values[u].shape == [EMBEDDING_SIZE]
      {
        EnrolledMember(users, userData.values, fs.files, u);
      }
    }

    /** `process_enrollment`: the form checks of `CheckEnrollment`, then decoding, the
        one-second minimum, embedding extraction, saving the embedding and adding one
        registry entry. Every refusal leaves the registry and the files as they were.
        The two writes can fail independently, and the answer is a success either way. */
    method ProcessEnrollment(audio: Upload, username: Option<string>, language: Option<string>,
                             embeddingWriteFails: bool, registryWriteFails: bool)
      returns (o: EnrollOutcome)
      requires Valid()
      modifies this, fs
      ensures Valid()
      ensures o.EnrollRefused? ==> userData == old(userData) && fs.files == old(fs.files)
      ensures o != EnrollRefused(EmptyAudio)
      ensures var c := CheckEnrollment(!audio.Missing?, username, language, old(userData), secureFilename);
        c.Err? ==> o == EnrollRefused(c.error)
      ensures var c := CheckEnrollment(!audio.Missing?, username, language, old(userData), secureFilename);
        c.Ok? && audio.Undecodable? ==> o == EnrollRefused(PreprocessingFailed)
      ensures var c := CheckEnrollment(!audio.Missing?, username, language, old(userData), secureFilename);
        c.Ok? && audio.Waveform? && |audio.samples| < MIN_SAMPLES ==> o == EnrollRefused(AudioTooShort)
      ensures var c := CheckEnrollment(!audio.Missing?, username, language, old(userData), secureFilename);
        var long := audio.Waveform? && |audio.samples| >= MIN_SAMPLES;
        c.Ok? && long && !model.ExtractionOf(audio.samples, SAMPLE_RATE).Embedded? ==> o == EnrollRefused(ExtractionFailed)
      ensures var c := CheckEnrollment(!audio.Missing?, username, language, old(userData), secureFilename);
        o.Enrolled? <==>
          c.Ok? && audio.Waveform? && |audio.samples| >= MIN_SAMPLES &&
          model.ExtractionOf(audio.samples, SAMPLE_RATE).Embedded?
      ensures var c := CheckEnrollment(!audio.Missing?, username, language, old(userData), secureFilename);
        o.Enrolled? ==>
          && c.Ok? && audio.Waveform?
          && o.username == c.value.username
          && fs.files == (if embeddingWriteFails then old(fs.files)
                          else old(fs.files)[EmbeddingPath(c.value.safeName + ".npy") :=
                                               NpyFile(model.ExtractionOf(audio.samples, SAMPLE_RATE).vector)])
          && userData == (if registryWriteFails then old(userData)
                          else old(userData).Put(c.value.safeName, NewEntry(c.value)))
    {
      var check := CheckEnrollment(!audio.Missing?, username, language, userData, secureFilename);
      if check.Err? {
        return EnrollRefused(check.error);
      }
      var admitted := check.value;
      var embeddingFilename := admitted.safeName + ".npy";
      var embeddingPath := EmbeddingPath(embeddingFilename);
      if audio.Undecodable? {
        return EnrollRefused(PreprocessingFailed);
      }
      var samples := audio.samples;
      if |samples| < MIN_SAMPLES {
        return EnrollRefused(AudioTooShort);
      }
      var extraction := model.ExtractEmbedding(samples, SAMPLE_RATE);
      if extraction.AudioIsEmpty? {
        return EnrollRefused(EmptyAudio);
      }
      if extraction.NoEmbedding? {
        return EnrollRefused(ExtractionFailed);
      }
      assert EndsWith(embeddingFilename, ".npy");
      JoinEndsWith(EMBEDDING_DIR, embeddingFilename, ".npy");
      model.SaveEmbedding(Some(extraction.vector), embeddingPath, fs, embeddingWriteFails);
      if !registryWriteFails {
        userData := userData.Put(admitted.safeName, NewEntry(admitted));
      }
      return Enrolled(admitted.username);
    }

    /** `process_login`: refuses without audio, refuses with "no users enrolled" before
        the audio is looked at, then decodes, checks the one-second minimum, extracts the
        login embedding, finds the first nearest enrolled speaker and accepts it when
        its distance is at most the threshold. The ghost `query` is the login embedding
        when one was extracted. */
    method ProcessLogin(audio: Upload) returns (o: LoginOutcome, ghost query: Option<NdArray>)
      requires Valid()
      ensures o == LoginRefused(MissingAudio) <==> audio.Missing?
      ensures o == LoginRefused(NoUsersEnrolled) <==>
                !audio.Missing? && EnrolledSpeakers(userData, fs.files).keys == []
      ensures o == LoginRefused(PreprocessingFailed) <==>
                audio.Undecodable? && EnrolledSpeakers(userData, fs.files).keys != []
      ensures o == LoginRefused(AudioTooShort) <==>
                audio.Waveform? && EnrolledSpeakers(userData, fs.files).keys != [] && |audio.samples| < MIN_SAMPLES
      ensures o != LoginRefused(EmptyAudio)
      ensures var long := audio.Waveform? && EnrolledSpeakers(userData, fs.files).keys != [] && |audio.samples| >= MIN_SAMPLES;
        long && !model.ExtractionOf(audio.samples, SAMPLE_RATE).Embedded? ==> o == LoginRefused(ExtractionFailed)
      ensures query.Some? <==>
                && audio.Waveform? && EnrolledSpeakers(userData, fs.files).keys != [] && |audio.samples| >= MIN_SAMPLES
                && model.ExtractionOf(audio.samples, SAMPLE_RATE).Embedded?
      ensures query.Some? ==> audio.Waveform? && model.ExtractionOf(audio.samples, SAMPLE_RATE) == Embedded(query.value)
      ensures query.Some? <==> o.Welcome? || o == LoginRefused(NotRecognized)
      ensures o.Welcome? ==>
                && query.Some? && o.user != "" && o.distance <= COSINE_THRESHOLD
                && o.user in userData.values && o.language == LanguageOf(userData, o.user)
                && var enrolled := EnrolledSpeakers(userData, fs.files);
                   exists k: nat | FirstNearest(enrolled, query.value, cosine, |enrolled.keys|, k) ::
                     enrolled.keys[k] == o.user && DistanceAt(enrolled, query.value, cosine, k) == Some(o.distance)
      ensures var enrolled := EnrolledSpeakers(userData, fs.files);
        query.Some? && (forall j | 0 <= j < |enrolled.keys| :: DistanceAt(enrolled, query.value, cosine, j).None?) ==>
          o == LoginRefused(NotRecognized)
      ensures query.Some? && o == LoginRefused(NotRecognized) ==>
                var enrolled := EnrolledSpeakers(userData, fs.files);
                forall k: nat | FirstNearest(enrolled, query.value, cosine, |enrolled.keys|, k) ::
                  enrolled.keys[k] == "" || DistanceAt(enrolled, query.value, cosine, k).value > COSINE_THRESHOLD
    {
      query := None;
      if audio.Missing? {
        return LoginRefused(MissingAudio), query;
      }
      var enrolled := GetEnrolledSpeakers();
      if enrolled.keys == [] {
        return LoginRefused(NoUsersEnrolled), query;
      }
      if audio.Undecodable? {
        return LoginRefused(PreprocessingFailed), query;
      }
      var samples := audio.samples;
      if |samples| < MIN_SAMPLES {
        return LoginRefused(AudioTooShort), query;
      }
      var extraction := model.ExtractEmbedding(samples, SAMPLE_RATE);
      if extraction.AudioIsEmpty? {
        return LoginRefused(EmptyAudio), query;
      }
      if extraction.NoEmbedding? {
        return LoginRefused(ExtractionFailed), query;
      }
      var loginEmbedding := extraction.vector;
      query := Some(loginEmbedding);
      var best, minDistance := IdentifySpeaker(enrolled, loginEmbedding, cosine);
      if Recognized(best, minDistance, COSINE_THRESHOLD) {
        EnrolledKeysAreRegistered(userData, fs.files, best.value);
        o := Welcome(best.value, minDistance.value, LanguageOf(userData, best.value));
      } else {
        o := LoginRefused(NotRecognized);
        RejectionExplained(enrolled, loginEmbedding, cosine, best, minDistance, COSINE_THRESHOLD);
      }
    }
  }
}
