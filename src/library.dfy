/** The music library of idlemp/library.py: track records, the library object
    the download task appends to, random selection under a length bound, and
    the library file's records. */
module Library {
  import opened Wrappers
  import opened Json
  import Seqs

  /** `MusicInfo`: a track; `length` is in seconds, `fileName` is relative to
      the library directory, `url` is where it was downloaded from. */
  datatype MusicInfo = MusicInfo(title: string, length: int, fileName: string, url: string)

  /** The keys of an encoded record, in the order the encoder writes them. */
  const RecordKeys: seq<string> := ["title", "length", "file_name", "url"]

  /** `random.choice(s)` with the random draw `pick`: the element at
      `pick mod len(s)`; IndexError on an empty sequence. */
  function Choice<T>(s: seq<T>, pick: nat): (r: Result<T>)
    ensures r.Ok? <==> s != []
    ensures r.Ok? ==> r.value in s
    ensures r.Err? ==> r.error == IndexError
  {
    if s == [] then Err(IndexError) else Ok(s[pick % |s|])
  }

  /** The comprehension of `get_random_with_max_len`: the tracks no longer
      than `maxLength`, in library order. */
  function Fitting(musics: seq<MusicInfo>, maxLength: int): (r: seq<MusicInfo>)
    ensures forall i :: 0 <= i < |r| ==> r[i] in musics && r[i].length <= maxLength
    ensures forall m :: m in musics && m.length <= maxLength ==> m in r
  {
    Seqs.Filter(musics, (m: MusicInfo) => m.length <= maxLength)
  }

  /** `MusicInfoEncoder.default`: an object with the four fields in order. */
  function EncodeRecord(m: MusicInfo): (r: JsonValue)
    ensures r.JObject? && |r.members| == |RecordKeys|
    ensures forall k :: 0 <= k < |RecordKeys| ==> r.members[k].0 == RecordKeys[k]
  {
    JObject([("title", JString(m.title)), ("length", JInt(m.length)),
             ("file_name", JString(m.fileName)), ("url", JString(m.url))])
  }

  /** The library file's document: the records of the tracks, in library
      order. */
  function EncodeLibrary(musics: seq<MusicInfo>): (r: JsonValue)
    ensures r.JArray? && |r.items| == |musics|
    ensures forall k :: 0 <= k < |musics| ==> r.items[k] == EncodeRecord(musics[k])
  {
    JArray(seq(|musics|, k requires 0 <= k < |musics| => EncodeRecord(musics[k])))
  }

  /** `o[key]`: KeyError when the object has no such key. */
  function Field(members: seq<(string, JsonValue)>, key: string): (r: Result<JsonValue>)
    ensures r.Ok? <==> Lookup(members, key).Some?
    ensures r.Ok? ==> r.value == Lookup(members, key).value
    ensures r.Err? ==> r.error == KeyError(key)
  {
    match Lookup(members, key)
    case None => Err(KeyError(key))
    case Some(v) => Ok(v)
  }

  /** `MusicInfo(o['title'], o['length'], o['file_name'], o['url'])`: the four
      lookups in that order, the first missing key raising KeyError. */
  function DecodeRecord(o: JsonValue): (r: Result<MusicInfo>)
    ensures r.Ok? ==> o.JObject?
  {
    match o
    case JObject(ms) =>
      var title :- Field(ms, "title");
      var length :- Field(ms, "length");
      var fileName :- Field(ms, "file_name");
      var url :- Field(ms, "url");
      if title.JString? && length.JInt? && fileName.JString? && url.JString?
      then Ok(MusicInfo(title.s, length.i, fileName.s, url.s))
      else Err(TypeError)
    // subscripting a list, a string or a scalar with a string
    case _ => Err(TypeError)
  }

  /** The comprehension of `MusicLibrary.from_json`: every record decoded in
      order, the first failure propagating. */
  function DecodeRecords(items: seq<JsonValue>): Result<seq<MusicInfo>> {
    Seqs.MapResult(items, DecodeRecord)
  }

  /** The tracks of a library document. Iterating an empty string or object
      yields nothing; the items of a non-empty one are strings, which cannot
      be subscripted with a key; scalars cannot be iterated. */
  function DecodeLibrary(doc: JsonValue): (r: Result<seq<MusicInfo>>)
    ensures r.Ok? <==> (doc.JArray? && DecodeRecords(doc.items).Ok?) || doc == JString("") || doc == JObject([])
    ensures r.Ok? && doc.JArray? ==> r.value == DecodeRecords(doc.items).value
    ensures r.Ok? && !doc.JArray? ==> r.value == []
  {
    match doc
    case JArray(items) => DecodeRecords(items)
    case JString(s) => if s == "" then Ok([]) else Err(TypeError)
    case JObject(ms) => if ms == [] then Ok([]) else Err(TypeError)
    case _ => Err(TypeError)
  }

  /** An encoded record has exactly the four keys, in order, holding the
      track's fields. */
  lemma EncodedRecordFields(m: MusicInfo)
    ensures |EncodeRecord(m).members| == |RecordKeys|
    ensures forall k :: 0 <= k < |RecordKeys| ==> EncodeRecord(m).members[k].0 == RecordKeys[k]
    ensures Lookup(EncodeRecord(m).members, "title") == Some(JString(m.title))
    ensures Lookup(EncodeRecord(m).members, "length") == Some(JInt(m.length))
    ensures Lookup(EncodeRecord(m).members, "file_name") == Some(JString(m.fileName))
    ensures Lookup(EncodeRecord(m).members, "url") == Some(JString(m.url))
  {
    var ms := EncodeRecord(m).members;
    LookupDistinct(ms, 0);
    LookupDistinct(ms, 1);
    LookupDistinct(ms, 2);
    LookupDistinct(ms, 3);
  }

  /** Decoding an encoded record gives the track back. */
  lemma RecordRoundTrip(m: MusicInfo)
    ensures DecodeRecord(EncodeRecord(m)) == Ok(m)
  {
    var ms := EncodeRecord(m).members;
    EncodedRecordFields(m);
    var title, length, fileName, url := Field(ms, "title"), Field(ms, "length"), Field(ms, "file_name"), Field(ms, "url");
    assert title == Ok(JString(m.title)) && length == Ok(JInt(m.length));
    assert fileName == Ok(JString(m.fileName)) && url == Ok(JString(m.url));
  }

  /** `from_json(into_json(lib))` has the same tracks in the same order, all
      four fields equal. */
  lemma LibraryRoundTrip(musics: seq<MusicInfo>)
    ensures DecodeLibrary(EncodeLibrary(musics)) == Ok(musics)
  {
    var items := EncodeLibrary(musics).items;
    forall k | 0 <= k < |items| ensures DecodeRecord(items[k]) == Ok(musics[k]) {
      RecordRoundTrip(musics[k]);
    }
    assert DecodeRecords(items).value == musics;
  }

  /** A record decodes only when it is an object holding all four keys, and
      the track's fields are the values under them; the first missing key is
      reported. */
  lemma DecodedRecordFields(o: JsonValue)
    ensures DecodeRecord(o).Ok? ==>
              && o.JObject?
              && Lookup(o.members, "title") == Some(JString(DecodeRecord(o).value.title))
              && Lookup(o.members, "length") == Some(JInt(DecodeRecord(o).value.length))
              && Lookup(o.members, "file_name") == Some(JString(DecodeRecord(o).value.fileName))
              && Lookup(o.members, "url") == Some(JString(DecodeRecord(o).value.url))
    ensures o.JObject? && Lookup(o.members, "title").None? ==> DecodeRecord(o) == Err(KeyError("title"))
  {
  }

  /** `from_json` fails when a record is not an object or lacks one of the
      four keys. */
  lemma DecodeLibraryNeedsAllKeys(items: seq<JsonValue>, k: nat, key: string)
    requires k < |items| && key in RecordKeys
    requires !items[k].JObject? || Lookup(items[k].members, key).None?
    ensures DecodeLibrary(JArray(items)).Err?
  {
    assert DecodeRecord(items[k]).Err?;
  }

  /** `MusicLibrary`: the tracks in order. The download task appends to it
      while the main loop selects from it. */
  class MusicLibrary {
    var musics: seq<MusicInfo>

    /** `MusicLibrary(musics)`, each library with its own list. */
    constructor (musics: seq<MusicInfo>)
      ensures this.musics == musics
    {
      this.musics := musics;
    }

    /** `add`: appends in place, leaving the earlier tracks as they were. */
    method Add(music: MusicInfo)
      modifies this
      ensures musics == old(musics) + [music]
    {
      musics := musics + [music];
    }

    /** `get_random`: some track of the library; IndexError when it is
        empty. */
    function GetRandom(pick: nat): (r: Result<MusicInfo>)
      reads this
      ensures r.Ok? <==> musics != []
      ensures r.Ok? ==> r.value in musics
      ensures r.Err? ==> r.error == IndexError
    {
      Choice(musics, pick)
    }

    /** `get_random_with_max_len` as written: a track no longer than
        `maxLength`, and IndexError (not None) when no track is that short. */
    function GetRandomWithMaxLen(maxLength: int, pick: nat): (r: Result<MusicInfo>)
      reads this
      ensures r.Ok? <==> exists m :: m in musics && m.length <= maxLength
      ensures r.Ok? ==> r.value in musics && r.value.length <= maxLength
      ensures r.Err? ==> r.error == IndexError
    {
      var fitting := Fitting(musics, maxLength);
      assert fitting != [] ==> fitting[0] in musics && fitting[0].length <= maxLength;
      Choice(fitting, pick)
    }

    /** `get_random_with_max_len` as its caller in the main loop expects it:
        None when no track is short enough. */
    function SelectWithMaxLen(maxLength: int, pick: nat): (r: Option<MusicInfo>)
      reads this
      ensures r.None? <==> forall m :: m in musics ==> m.length > maxLength
      ensures r.Some? ==> r.value in musics && r.value.length <= maxLength
    {
      match GetRandomWithMaxLen(maxLength, pick)
      case Ok(m) => Some(m)
      case Err(_) => None
    }

    /** `into_json`: the library file's document, which `from_json` reads
        back as the same tracks. */
    function IntoJson(): (doc: JsonValue)
      reads this
      ensures DecodeLibrary(doc) == Ok(musics)
    {
      LibraryRoundTrip(musics);
      EncodeLibrary(musics)
    }

    /** `MusicLibrary.from_json`: a new library holding the decoded tracks,
        or the exception decoding raised. */
    static method FromJson(doc: JsonValue) returns (r: Result<MusicLibrary>)
      ensures r.Ok? <==> DecodeLibrary(doc).Ok?
      ensures r.Ok? ==> fresh(r.value) && r.value.musics == DecodeLibrary(doc).value
      ensures r.Err? ==> r.error == DecodeLibrary(doc).error
    {
      match DecodeLibrary(doc)
      case Ok(musics) =>
        var library := new MusicLibrary(musics);
        return Ok(library);
      case Err(e) =>
        return Err(e);
    }
  }

  /** Every track no longer than the bound is a possible result of
      `get_random_with_max_len`, and longer tracks never are. */
  lemma EveryFittingTrackPossible(library: MusicLibrary, maxLength: int, m: MusicInfo)
    requires m in library.musics
    ensures m.length <= maxLength <==> exists pick: nat :: library.GetRandomWithMaxLen(maxLength, pick) == Ok(m)
  {
    if m.length <= maxLength {
      var fitting := Fitting(library.musics, maxLength);
      assert m in fitting;
      var i :| 0 <= i < |fitting| && fitting[i] == m;
      ChoiceAt(fitting, i);
      assert library.GetRandomWithMaxLen(maxLength, i) == Ok(m);
    }
  }

  /** A draw below the length picks the element at that position. */
  lemma ChoiceAt<T>(s: seq<T>, i: nat)
    requires i < |s|
    ensures Choice(s, i) == Ok(s[i])
  {
    assert i % |s| == i;
  }

  /** Every track is a possible result of `get_random`. */
  lemma EveryTrackPossible(library: MusicLibrary, i: nat)
    requires i < |library.musics|
    ensures library.GetRandom(i) == Ok(library.musics[i])
  {
  }
}
