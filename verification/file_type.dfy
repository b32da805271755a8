/**
 * `file_type_by_extension`: the coarse kind of a download, looked up by its
 * file-name extension (with or without one leading dot) in a fixed table.
 */
module FileType {
  import opened Options

  datatype Kind = Audio | Video | Torrent {
    /** The string the source returns for this kind. */
    function Name(): string {
      match this
      case Audio => "audio"
      case Video => "video"
      case Torrent => "torrent"
    }
  }

  /** The table of the source, one extension list per kind. */
  function Extensions(k: Kind): seq<string> {
    match k
    case Audio => ["mp3", "ogg", "wav", "wma", "aac", "m4a"]
    case Video => ["mp4", "avi", "mpg", "mpeg", "m4v", "mov", "divx"]
    case Torrent => ["torrent"]
  }

  /** The extension with one leading dot removed, if it has one. */
  function Undotted(extension: string): (r: string)
    requires extension != []
    ensures extension == "." + r || (extension[0] != '.' && r == extension)
  {
    if extension[0] == '.' then extension[1..] else extension
  }

  /**
   * The kind whose list holds the (undotted) extension, `None` for the empty
   * string and for anything not in the table; the comparison is exact, so
   * case matters.
   */
  function FileTypeByExtension(extension: string): (r: Option<Kind>)
    ensures extension == [] ==> r == None
    ensures forall k :: r == Some(k) <==> extension != [] && Undotted(extension) in Extensions(k)
  {
    if extension == [] then None
    else
      var e := Undotted(extension);
      if e in Extensions(Audio) then Some(Audio)
      else if e in Extensions(Video) then Some(Video)
      else if e in Extensions(Torrent) then Some(Torrent)
      else None
  }

  /**
   * The source's return value: the kind's name, one of the strings "audio",
   * "video" and "torrent", or `None`.
   */
  function FileTypeName(extension: string): (r: Option<string>)
    ensures r.Some? ==> r.value == "audio" || r.value == "video" || r.value == "torrent"
    ensures forall k: Kind :: r == Some(k.Name()) <==> extension != [] && Undotted(extension) in Extensions(k)
  {
    match FileTypeByExtension(extension)
    case None => None
    case Some(k) =>
      assert forall j: Kind :: j.Name() == k.Name() ==> j == k;
      Some(k.Name())
  }

  /** One leading dot makes no difference. */
  lemma {:induction false} LeadingDotIgnored(e: string)
    requires e != [] && e[0] != '.'
    ensures FileTypeByExtension("." + e) == FileTypeByExtension(e)
  {
    assert ("." + e)[1..] == e;
  }

  /** The lookup is case-sensitive: upper-case spellings are unknown. */
  lemma CaseSensitive()
    ensures FileTypeByExtension("mp3") == Some(Audio)
    ensures FileTypeByExtension(".MP3") == None
    ensures FileTypeByExtension("Torrent") == None
  {
  }
}
