# Voice enrollment and speaker identification — a Dafny model

This project models the decision logic of a small web service that enrolls users by a
recorded voice sample and later "logs in" whoever speaks by finding the enrolled
speaker whose ECAPA-TDNN embedding is nearest to the new sample's embedding.

What is modelled:

- **Enrollment** (`process_enrollment`): the username is stripped and lower-cased,
  refused when empty, passed through `secure_filename` (a function given to the
  service) and refused when that leaves nothing; the stripped language must be one
  of `en`, `hi`, `ta`; the sanitised name must not be in the registry yet; the decoded
  waveform must hold at least 16000 samples (one second at 16 kHz); the embedding is
  extracted, saved as `<name>.npy` under `saved_embeddings`, and exactly one registry
  entry `{embedding_file, language}` is added. Every refusal leaves the registry and
  the files as they were.
- **The enrolled mapping** (`get_enrolled_speakers_embeddings`): registry users, in
  registry order, whose entry names an embedding file that loads with shape (192,).
- **Login** (`process_login`): "no users enrolled" is answered before the audio is
  looked at; then the same decoding, length and extraction gates as enrollment; then a
  linear scan that keeps the strictly nearest speaker (so the earliest one wins a tie
  and comparisons that raise are skipped); the speaker is accepted when the scan found
  one, its name is not the empty string and its distance is at most 0.4.
- **The embedding wrapper** (`ECAPA_TDNN`): empty audio raises, audio shorter than
  `int(sr * 0.1)` samples is zero-padded at the end to that length, the network output
  is passed on only with shape (1, 192) and flattened to (192,); `save_embedding`
  writes only a (192,) array, and `load_embedding` returns only a readable (192,) array.

Python dictionaries are insertion-ordered, and the tie-break depends on that order, so
both the registry and the enrolled mapping are `Dicts.Dict`: a map plus the order of
its keys. Floating-point values are reals. The pretrained network (`encode_batch`),
`scipy`'s cosine distance and `werkzeug`'s `secure_filename` are functions handed to
the constructors, with nothing assumed about them. A cosine distance that raises,
and one that is NaN, are both `None`: NaN never passes the scan's `<`, so it has the
same effect as a skipped candidate. The file system is the `files` map of
`Ecapa.FileStore`. The registry, which the source reloads from a JSON file on every
request, is the `userData` field of `App.SpeakerApp`. The two writes of an enrollment
can each fail. The source only prints those errors, so the model takes each failure
as a parameter and still answers "success".

Behaviour of the code worth knowing:

- Enrollment is not atomic. If the embedding write fails, the registry entry is still
  added. If the registry write fails, the embedding file still stays. Both cases
  answer "success". `Registry.LostEmbeddingLocksOutUser` shows the consequence:
  such a user is registered, can never be identified, and cannot enroll again.
- Acceptance needs more than `min_distance <= threshold`. The code tests
  `best_match_user and ...`, so a registry user named by the empty string is never
  accepted.
- A rejected login reports only "not recognized". It does not return the best
  distance.

## Model

| member | source | states |
|---|---|---|
| `Dicts.Dict.Put` | app.py:138 | `d[k] = v` keeps the keys distinct and in step with the map; a new key goes last, an existing key keeps its place, every other key keeps its value |
| `Dicts.Empty` | app.py:76 | the empty dict is well formed and has no keys |
| `Text.Strip` | app.py:120 | `strip()` returns a slice of the input outside which everything is whitespace, and the result neither starts nor ends with whitespace |
| `Text.IsSpaceIsPythonWhitespace` | app.py:120 | `Text.IsSpace`, the whitespace test of `strip()`, holds of exactly the 29 characters for which `str.isspace()` is true, listed one by one |
| `Text.Lower` | app.py:120 | `lower()` keeps the length and lower-cases each character in place |
| `Text.Normalize` | app.py:120 | the modelled `strip().lower()` (ASCII lower-casing) never lengthens the username, leaves no whitespace at either end and no ASCII capital in it |
| `Text.LowerIdempotent` | app.py:120 | lower-casing an already lower-cased string changes nothing |
| `Text.StripEmptyIffBlank` | app.py:120-121 | stripping leaves nothing exactly when the input is whitespace only |
| `Text.NormalizeEmptyIffBlank` | app.py:120-121 | the normalised username is empty exactly when the submitted one is whitespace only, so "Username empty" is answered for exactly those inputs |
| `Text.NormalizeIdempotent` | app.py:120 | normalising an already normalised username changes nothing |
| `Ecapa.MinLength` | ecapa_tdnn.py:47 | `int(sr * 0.1)` is a tenth of the sample rate truncated toward zero (1600 at 16 kHz) |
| `Ecapa.PadToMinLength` | ecapa_tdnn.py:47-48 | short audio is padded with zeros at the end to exactly the minimum length, the original samples form a prefix, and audio at or above the minimum is passed on unchanged |
| `Ecapa.NpyPath` | ecapa_tdnn.py:92 | `np.save` writes to the given path when it ends in ".npy", and to that path with ".npy" appended otherwise |
| `Ecapa.Loaded` | ecapa_tdnn.py:95-103 | a load yields an array exactly when the file exists, is readable and has shape (192,), and then it is the stored array with 192 elements |
| `Ecapa.EcapaTdnn.ExtractEmbedding` | ecapa_tdnn.py:37-85 | empty audio is the only input that raises; a returned embedding always has shape (192,) and 192 elements and is the network's (1, 192) output on the padded audio; a network error or any other output shape gives `None` |
| `NdArrays.SqueezeLeading` | ecapa_tdnn.py:74 | `squeeze(0)` turns a (1, n) array into an (n,) array with the same elements in the same order |
| `Ecapa.EcapaTdnn.SaveEmbedding` | ecapa_tdnn.py:88-93 | nothing is written for `None`, for a shape other than (192,), or when the write fails; otherwise the embedding is stored at the `np.save` path and no other path changes |
| `Ecapa.EcapaTdnn.LoadEmbedding` | ecapa_tdnn.py:95-103 | `None` exactly when the file is missing, unreadable or not of shape (192,); otherwise the stored array, of 192 elements |
| `Ecapa.SaveLoadRoundTrip` | ecapa_tdnn.py:88-103 | saving a (192,) embedding to a ".npy" path and loading that path returns the same embedding |
| `Ecapa.SaveWithoutExtensionMissesPath` | ecapa_tdnn.py:92 | saving to a path without ".npy" does not change what loading that path returns |
| `Ecapa.SaveThenLoad` | ecapa_tdnn.py:88-103 | a client that calls save and then load on one ".npy" path gets the embedding back, and only that file changed |
| `Registry.Join` | app.py:127 | `os.path.join` returns an absolute second part unchanged, and otherwise the directory, one separator and the file name, with no separator added after an empty directory or one already ending in '/' |
| `Registry.JoinEndsWith` | app.py:127 | `os.path.join(dir, file)` ends with `file`, so the embedding path keeps the ".npy" extension |
| `Registry.LanguageOf` | app.py:193 | the session language is the registry entry's language, or "en" when the user or its language is absent |
| `Registry.CheckEnrollment` | app.py:119-126 | the form is accepted exactly when all fields are present, the normalised name and its sanitised form are non-empty, the stripped language is supported and the sanitised name is not registered; each refusal names a failed check whose earlier checks passed, so a blank name is reported as "Username empty" whatever the language |
| `Registry.NewEntry` | app.py:135-138 | the new registry entry holds the admitted language and the file name `<safe name>.npy`, so the path it names is the path `np.save` wrote the embedding to |
| `Registry.EmbeddingOf` | app.py:79-81 | a registry user has an embedding exactly when its entry names an `embedding_file` that loads, and that embedding has shape (192,) |
| `Registry.EnrolledFrom` | app.py:75-85 | the mapping built by the loop is always a well-formed dict |
| `Registry.EnrolledInRegistryOrder` | app.py:75-85 | over a registry with distinct keys, the enrolled speakers are exactly the registry users whose embedding loads, in registry order |
| `Registry.EnrolledMember` | app.py:78-82 | a user is in the enrolled mapping exactly when it is a registry key whose `embedding_file` loads, and it then carries that (192,) embedding |
| `Registry.EnrolledKeysAreRegistered` | app.py:78-82 | every enrolled user is a registry key with an `embedding_file`, and its embedding is what loading that file returns |
| `Registry.EnrollmentMakesUserLoadable` | app.py:127-138 | after an enrollment whose two writes succeeded, the new user is the last speaker of the enrolled mapping and carries the extracted embedding |
| `Registry.LostEmbeddingLocksOutUser` | app.py:126-139 | if the embedding write failed but the registry write did not, the user is registered, is absent from the enrolled mapping, and a second enrollment under that name is refused |
| `Registry.SecondEnrollmentRejected` | app.py:125-126 | once a name is enrolled, enrolling it again is refused as "Username exists", whatever supported language the second request names |
| `Identification.IdentifySpeaker` | app.py:172-185 | the scan returns nobody with an infinite distance exactly when every comparison failed; otherwise it returns the first nearest enrolled speaker and that speaker's distance, which is at most every successful distance and strictly below the distances of all earlier speakers |
| `Identification.FirstNearestUnique` | app.py:182-184 | the first nearest speaker is unique, so the scan's answer is determined |
| `Identification.TieGoesToEarlier` | app.py:182 | a later speaker at exactly the distance of an earlier one is never the answer |
| `Identification.RejectionExplained` | app.py:187-206 | a rejection after a scan means nobody was found, or the first nearest speaker has the empty name or lies beyond the threshold |
| `Identification.AcceptanceCriterion` | app.py:187-189 | `Identification.Recognized` after a scan accepts exactly when the first nearest enrolled speaker has a non-empty name and a distance at most the threshold |
| `Identification.RaisingThresholdOnlyAccepts` | app.py:189 | raising the threshold can only turn rejections into acceptances |
| `App.SpeakerApp.constructor` | app.py:59-61 | a service without a registry file starts with the empty registry |
| `App.SpeakerApp.GetEnrolledSpeakers` | app.py:75-85 | the loop returns the enrolled mapping of the current registry and files, whose users are registry keys with (192,) embeddings |
| `App.SpeakerApp.ProcessEnrollment` | app.py:116-142 | refusals follow the source's order and leave registry and files unchanged; success saves the embedding at `saved_embeddings/<name>.npy` and appends exactly one entry `{<name>.npy, language}`, each unless its write fails |
| `App.SpeakerApp.ProcessLogin` | app.py:144-210 | "no users enrolled" exactly when audio was uploaded and the enrolled mapping is empty, whatever audio is uploaded; missing audio is the only cause of "missing audio"; short, undecodable or unembeddable audio is refused before any comparison, unembeddable audio as "extraction failed"; when every comparison fails the answer is "not recognized"; an accepted user is the first nearest enrolled speaker, a registry key, not the empty name, within 0.4, with its registry language; a "not recognized" answer means that no such speaker exists |

## Left out

- Audio decoding and resampling (`preprocess.py`, pydub, soundfile, librosa, ffmpeg):
  foreign codecs. A request carries the decoder's result as `App.Upload`.
- Loading the pretrained network, and inference with its reshaping to two dimensions
  (ecapa_tdnn.py:20-35 and 51-66): foreign code and floating point. The `encoder`
  function of `Ecapa.EcapaTdnn` stands for `encode_batch` followed by that reshaping.
- The conversion of non-array audio and the averaging of multi-channel audio
  (ecapa_tdnn.py:42-45): the decoder always delivers a mono array.
- The cosine-distance arithmetic (app.py:179) is the foreign `cosine` function.
  Nothing is assumed about its range, so the [0, 2] range of cosine distance is not
  stated.
- Floating-point numbers are reals. `Ecapa.MinLength` is exact for sample rates
  below 2^49.
- `Text.Lower`: does not model `str.lower()` outside ASCII, because the model has
  no Unicode case tables. Characters other than `A`–`Z` are left unchanged.
- `App.SpeakerApp.ProcessEnrollment`: a failed write (`embeddingWriteFails`,
  `registryWriteFails`) stands only for a write that changed nothing. A write that
  fails part-way is not modelled: `save_user_data` truncates the registry file before
  `json.dump` (app.py:70-72), so a failure after that leaves a file `load_user_data`
  reads as `{}` and every user is lost; `np.save` (ecapa_tdnn.py:92) can likewise
  leave a partial embedding file.
- `Text.Normalize`: its length bound holds only for the modelled ASCII lower-casing;
  Python's `lower()` can lengthen a non-ASCII name (`'İ'.lower()` has two characters).
- The registry's JSON file (app.py:59-72) is an in-memory field. A missing or
  non-dict file reads as empty, which the constructor models. Registry entries that
  are not dictionaries are not modelled.
- Flask routes, templates, sessions, `flash`/`redirect`/`jsonify`, the HTTP status
  codes, log lines and the `.4f` formatting of the distance (app.py:88-112 and
  190-201): the outcomes keep only their kind, user, distance and language.
- Exceptions other than those the source raises on purpose, answered as
  "Internal error" (app.py:142 and 209-210), are not modelled.
- Start-up (app.py:16-56 and 213-215): directory creation, model construction, and
  the `exit()` on a wrong embedding size.
- Concurrent requests are not modelled. Each handler runs alone against the current
  registry and files.
