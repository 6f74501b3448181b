/** `ParsedSafetensorsIndex`: a weight map from tensor names to shard file
    names, and the lookup that opens the shard holding a tensor. */
module Index {
  import opened Wrappers
  import opened Errors
  import opened Bytes
  import opened Json
  import opened Containers
  import opened Framing
  import Descriptors

  /** `ParsedSafetensorsIndexData.Metadata`. */
  datatype IndexMetadata = IndexMetadata(totalSize: int)

  /** `ParsedSafetensorsIndexData`: optional metadata and the weight map. */
  datatype IndexData = IndexData(metadata: Option<IndexMetadata>, weightMap: map<string, string>)

  /** A `URL`: whether it is a file URL, and its path components. */
  datatype Url = Url(isFile: bool, components: seq<string>)

  /** `ParsedSafetensorsIndex`. */
  datatype ParsedIndex = ParsedIndex(metadata: Option<IndexMetadata>, weightMap: map<string, string>, baseURL: Url)

  /** `appendingPathComponent`: one more component; a file URL stays one. */
  function AppendingPathComponent(u: Url, name: string): (r: Url)
    ensures r.isFile == u.isFile && r.components == u.components + [name]
  {
    Url(u.isFile, u.components + [name])
  }

  /** The files the index may open; a file's contents are a `Data`, whose
      count is a Swift `Int`. `None` when the file cannot be read. */
  type FileSystem = fs: Url -> Option<Bytes> | forall u :: fs(u).Some? ==> |fs(u).value| <= IntMax
    witness (u: Url) => None

  /** The file that holds `key`: the weight map's file name, under the
      argument base URL when one is given and the stored one otherwise. */
  function ShardURL(idx: ParsedIndex, key: string, baseURL: Option<Url>): (r: Result<Url, Error>)
    ensures r.Ok? <==> key in idx.weightMap
    ensures r.Err? ==> r.error == MissingTensorDataForKey(key)
    ensures r.Ok? && baseURL.Some? ==> r.value == AppendingPathComponent(baseURL.value, idx.weightMap[key])
    ensures r.Ok? && baseURL.None? ==> r.value == AppendingPathComponent(idx.baseURL, idx.weightMap[key])
  {
    if key !in idx.weightMap then Err(MissingTensorDataForKey(key))
    else
      var url := if baseURL.Some? then baseURL.value else idx.baseURL;
      Ok(AppendingPathComponent(url, idx.weightMap[key]))
  }

  /** `read(at:)`: the URL must be a file URL (a `precondition`), the file
      must be readable, then its contents are decoded. */
  ghost function Read(url: Url, fs: FileSystem, parse: JsonReader): (r: Result<Container, Error>)
    ensures !url.isFile ==> r == Err(Trap)
    ensures url.isFile && fs(url).None? ==> r == Err(ReadFailed)
    ensures url.isFile && fs(url).Some? ==> r == Decode(fs(url).value, parse)
  {
    if !url.isFile then Err(Trap)
    else match fs(url)
      case None => Err(ReadFailed)
      case Some(data) => Decode(data, parse)
  }

  /** `parsedSafetensors(forWeightKey:baseURL:)`: a name missing from the
      weight map is reported before any file is touched. */
  ghost function ParsedSafetensorsFor(idx: ParsedIndex, key: string, baseURL: Option<Url>, fs: FileSystem, parse: JsonReader)
    : (r: Result<Container, Error>)
    ensures key !in idx.weightMap ==> r == Err(MissingTensorDataForKey(key))
    ensures key in idx.weightMap ==> r == Read(ShardURL(idx, key, baseURL).value, fs, parse)
  {
    var url :- ShardURL(idx, key, baseURL);
    Read(url, fs, parse)
  }

  /** `tensorData(forKey:baseURL:)`: the shard's own `tensorData(forKey:)`. */
  ghost function TensorDataFor(idx: ParsedIndex, key: string, baseURL: Option<Url>, fs: FileSystem, parse: JsonReader)
    : (r: Result<Descriptors.TensorData, Error>)
    ensures ParsedSafetensorsFor(idx, key, baseURL, fs, parse).Err? ==>
              r == Err(ParsedSafetensorsFor(idx, key, baseURL, fs, parse).error)
    ensures ParsedSafetensorsFor(idx, key, baseURL, fs, parse).Ok? ==>
              r == Containers.TensorData(ParsedSafetensorsFor(idx, key, baseURL, fs, parse).value, key)
  {
    var c :- ParsedSafetensorsFor(idx, key, baseURL, fs, parse);
    Containers.TensorData(c, key)
  }

  /** A descriptor found through the index is a tensor of the shard named
      by the weight map, in a file that decodes. */
  lemma FoundInNamedShard(idx: ParsedIndex, key: string, baseURL: Option<Url>, fs: FileSystem, parse: JsonReader)
    requires TensorDataFor(idx, key, baseURL, fs, parse).Ok?
    ensures key in idx.weightMap
    ensures var url := AppendingPathComponent(if baseURL.Some? then baseURL.value else idx.baseURL, idx.weightMap[key]);
      && url.isFile && fs(url).Some?
      && Decode(fs(url).value, parse).Ok?
      && key in Decode(fs(url).value, parse).value.header
      && Decode(fs(url).value, parse).value.header[key].Tensor?
      && TensorDataFor(idx, key, baseURL, fs, parse).value == Decode(fs(url).value, parse).value.header[key].data
  {
  }

  /** The memberwise `init(metadata:weightMap:baseURL:)`: each field holds
      its argument. */
  function NewIndex(metadata: Option<IndexMetadata>, weightMap: map<string, string>, baseURL: Url): (r: ParsedIndex)
    ensures r.metadata == metadata && r.weightMap == weightMap && r.baseURL == baseURL
  {
    ParsedIndex(metadata, weightMap, baseURL)
  }
}
