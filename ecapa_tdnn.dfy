/** The speaker-embedding wrapper of `ecapa_tdnn.py`: the length and shape gates around
    the pretrained network, and saving/loading embeddings as `.npy` files. The network
    itself is a foreign function handed to the constructor. */
module Ecapa {
  import opened Wrappers
  import opened NdArrays

  /** Length of a speaker embedding of the `spkrec-ecapa-voxceleb` model. */
  const EMBEDDING_SIZE: nat := 192

  /** What a path of the file system holds: an array `np.load` can read, or anything
      else that makes `np.load` raise (a corrupt file, a directory). */
  datatype FileContent = NpyFile(contents: NdArray) | Unreadable

  /** The file system the embeddings are written to, keyed by path. */
  class FileStore {
    var files: map<string, FileContent>

    constructor (files: map<string, FileContent>)
      ensures this.files == files
    {
      this.files := files;
    }
  }

  /** Does `s` end with `suffix`? */
  predicate EndsWith(s: string, suffix: string) {
    |suffix| <= |s| && s[|s| - |suffix|..] == suffix
  }

  /** The path `np.save` writes to: it appends ".npy" to a path without that extension. */
  function NpyPath(path: string): (p: string)
    ensures EndsWith(p, ".npy")
    ensures EndsWith(path, ".npy") ==> p == path
    ensures !EndsWith(path, ".npy") ==> p == path + ".npy"
  {
    if EndsWith(path, ".npy") then path else path + ".npy"
  }

  /** `int(sr * 0.1)`: a tenth of the sample rate, truncated toward zero. */
  function MinLength(sr: int): (n: int)
    ensures sr >= 0 ==> 0 <= n && n * 10 <= sr < n * 10 + 10
    ensures sr < 0 ==> n <= 0 && -sr - 10 < -n * 10 <= -sr
  {
    if sr >= 0 then sr / 10 else -((-sr) / 10)
  }

  /** `np.pad(audio, (0, min_len - len(audio)), 'constant')` when the audio is shorter
      than `MinLength(sr)`, and the audio itself otherwise. */
  function PadToMinLength(audio: seq<real>, sr: int): (r: seq<real>)
    ensures |r| == if |audio| < MinLength(sr) then MinLength(sr) else |audio|
    ensures r[..|audio|] == audio
    ensures forall i | |audio| <= i < |r| :: r[i] == 0.0
    ensures |audio| >= MinLength(sr) ==> r == audio
  {
    if |audio| < MinLength(sr) then audio + seq(MinLength(sr) - |audio|, _ => 0.0) else audio
  }

  /** What `np.load` followed by the shape check yields for a path: the stored array
      when the file exists, is readable and has shape (192,), and `None` otherwise. */
  function Loaded(files: map<string, FileContent>, path: string): (r: Option<NdArray>)
    ensures r.Some? <==> path in files && files[path].NpyFile? && files[path].contents.shape == [EMBEDDING_SIZE]
    ensures r.Some? ==> r.value == files[path].contents && |r.value.data| == EMBEDDING_SIZE
  {
    if path in files && files[path].NpyFile? && files[path].contents.shape == [EMBEDDING_SIZE] then
      assert Product([EMBEDDING_SIZE]) == EMBEDDING_SIZE * Product([]);
      Some(files[path].contents)
    else
      None
  }

  /** Outcome of `extract_embedding`: an embedding, `None` (the network failed or gave
      an unexpected shape), or the `ValueError` raised for empty audio. */
  datatype Extraction = Embedded(vector: NdArray) | NoEmbedding | AudioIsEmpty

  class EcapaTdnn {
    /** `self.embedding_size`. */
    const embeddingSize: nat := EMBEDDING_SIZE
    /** `self.model.encode_batch` on a one-row batch, including its reshaping to two
        dimensions; `None` stands for an exception raised inside the network. */
    const encoder: seq<real> -> Option<NdArray>

    constructor (encoder: seq<real> -> Option<NdArray>)
      ensures this.encoder == encoder
    {
      this.encoder := encoder;
    }

    /** The result of `extract_embedding(audio, sr)` on mono audio, as a value: the
        reference the contracts of `ExtractEmbedding` and of the request handlers are
        stated against. What it means is stated and proved on `ExtractEmbedding`. */
    function ExtractionOf(audio: seq<real>, sr: int): Extraction {
      if audio == [] then AudioIsEmpty
      else
        match encoder(PadToMinLength(audio, sr))
        case None => NoEmbedding
        case Some(batch) =>
          if batch.shape == [1, embeddingSize] then
            var embedding := SqueezeLeading(batch);
            if embedding.shape == [embeddingSize] then Embedded(embedding) else NoEmbedding
          else NoEmbedding
    }

    /** `extract_embedding`: rejects empty audio, pads short audio with zeros, runs the
        network and passes its output on only when it has shape (1, 192), flattened to
        (192,). */
    method ExtractEmbedding(audio: seq<real>, sr: int) returns (r: Extraction)
      ensures r == ExtractionOf(audio, sr)
      ensures r == AudioIsEmpty <==> audio == []
      ensures r.Embedded? ==> r.vector.shape == [embeddingSize] && |r.vector.data| == embeddingSize
      ensures r.Embedded? ==> encoder(PadToMinLength(audio, sr)) == Some(RawArray([1, embeddingSize], r.vector.data))
      ensures var out := encoder(PadToMinLength(audio, sr));
        audio != [] && (out.None? || out.value.shape != [1, embeddingSize]) ==> r == NoEmbedding
    {
      if audio == [] {
        return AudioIsEmpty;
      }
      var samples := audio;
      var minLen := MinLength(sr);
      if |samples| < minLen {
        samples := samples + seq(minLen - |samples|, _ => 0.0);
      }
      assert samples == PadToMinLength(audio, sr);
      var embedding := encoder(samples);
      if embedding.None? {
        return NoEmbedding;
      }
      if embedding.value.shape != [1, embeddingSize] {
        return NoEmbedding;
      }
      var finalEmbedding := SqueezeLeading(embedding.value);
      if finalEmbedding.shape != [embeddingSize] {
        return NoEmbedding;
      }
      assert Product([embeddingSize]) == embeddingSize * Product([]);
      return Embedded(finalEmbedding);
    }

    /** `save_embedding`: writes nothing for `None`, for a shape other than (192,), or
        when the write itself fails (the error is only printed); otherwise the file
        `np.save` picks holds the embedding and every other path is untouched. */
    method SaveEmbedding(embedding: Option<NdArray>, path: string, fs: FileStore, writeFails: bool)
      modifies fs
      ensures embedding.None? || embedding.value.shape != [embeddingSize] || writeFails ==>
                fs.files == old(fs.files)
      ensures embedding.Some? && embedding.value.shape == [embeddingSize] && !writeFails ==>
                fs.files == old(fs.files)[NpyPath(path) := NpyFile(embedding.value)]
    {
      if embedding.None? {
        return;
      }
      if embedding.value.shape != [embeddingSize] {
        return;
      }
      if !writeFails {
        fs.files := fs.files[NpyPath(path) := NpyFile(embedding.value)];
      }
    }

    /** `load_embedding`: the stored array when the path exists, is readable and holds
        shape (192,); `None` when the file is missing, unreadable or of another shape. */
    method LoadEmbedding(path: string, fs: FileStore) returns (r: Option<NdArray>)
      ensures r == Loaded(fs.files, path)
      ensures r.None? <==> path !in fs.files || fs.files[path].Unreadable? || fs.files[path].contents.shape != [embeddingSize]
      ensures r.Some? ==> r.value == fs.files[path].contents && |r.value.data| == embeddingSize
    {
      if path !in fs.files {
        return None;
      }
      match fs.files[path]
      case Unreadable =>
        return None;
      case NpyFile(embedding) =>
        if embedding.shape != [embeddingSize] {
          return None;
        }
        return Some(embedding);
    }
  }

  /** Saving a (192,) embedding to a ".npy" path and loading that path gives the
      embedding back. */
  lemma SaveLoadRoundTrip(files: map<string, FileContent>, path: string, embedding: NdArray)
    requires EndsWith(path, ".npy") && embedding.shape == [EMBEDDING_SIZE]
    ensures Loaded(files[NpyPath(path) := NpyFile(embedding)], path) == Some(embedding)
  {
  }

  /** Saving to a path without the ".npy" extension writes another file, so loading the
      path given to `save_embedding` does not see the new embedding. */
  lemma SaveWithoutExtensionMissesPath(files: map<string, FileContent>, path: string, embedding: NdArray)
    requires !EndsWith(path, ".npy")
    ensures Loaded(files[NpyPath(path) := NpyFile(embedding)], path) == Loaded(files, path)
  {
  }

  /** The save-then-load client: what `load_embedding` returns right after
      `save_embedding` wrote a (192,) embedding to a ".npy" path. */
  method SaveThenLoad(model: EcapaTdnn, fs: FileStore, embedding: NdArray, path: string) returns (r: Option<NdArray>)
    requires EndsWith(path, ".npy") && embedding.shape == [EMBEDDING_SIZE]
    modifies fs
    ensures r == Some(embedding)
    ensures fs.files == old(fs.files)[path := NpyFile(embedding)]
  {
    model.SaveEmbedding(Some(embedding), path, fs, false);
    r := model.LoadEmbedding(path, fs);
  }
}
