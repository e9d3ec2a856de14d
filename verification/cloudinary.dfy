/** The pure parts of the Cloudinary upload helper: the `data:` URI it
    builds for the media (RFC 2397, section 2:
    `data:[<mediatype>][;base64],<data>`), the resource type it asks for,
    the fixed destination folder, and how the SDK's outcome is turned into
    the helper's result. The upload itself is an oracle. */
module Cloudinary {
  import opened Wrappers
  import opened Text
  import opened Effects

  /** Folder every upload is filed under. */
  const FOLDER := "whatsapp_trello_anexos"

  /** The one message the helper throws, whatever the SDK reported. */
  const UPLOAD_FAILURE := "Falha ao obter URL pública da mídia."

  /** What the helper prints when the SDK rejects, before it throws. */
  function UploadErrorLog(message: string): string {
    "❌ Erro durante o upload para o Cloudinary: " + message
  }

  const SCHEME := "data:"
  const BASE64_PARAM := ";base64"

  /** The base64 `data:` URI of a payload with the given media type. */
  function DataUri(mimeType: string, payload: string): string {
    SCHEME + mimeType + BASE64_PARAM + "," + payload
  }

  /** Reads the header of a base64 `data:` URI: the media type followed
      by the `;base64` parameter. */
  function ParseHeader(header: string): (mimeType: Option<string>)
    ensures mimeType.Some? ==> header == mimeType.value + BASE64_PARAM
  {
    var n := |header| - |BASE64_PARAM|;
    if n < 0 || header[n..] != BASE64_PARAM then None
    else
      assert header == header[..n] + header[n..];
      Some(header[..n])
  }

  /** Reads a base64 `data:` URI: the media type is what lies between the
      scheme and the `;base64` parameter, and the data is everything after
      the first comma (RFC 2397, section 2). `None` for anything else. */
  function ParseDataUri(uri: string): Option<(string, string)> {
    if !StartsWith(uri, SCHEME) then None
    else
      var rest := uri[|SCHEME|..];
      var k := FirstIndexOf(rest, ',');
      if k == |rest| then None
      else
        match ParseHeader(rest[..k])
        case None => None
        case Some(mimeType) => Some((mimeType, rest[k + 1..]))
  }

  /** The payload and media type are recoverable from the URI whenever the
      media type has no comma (a comma ends the header in RFC 2397). */
  lemma DataUriRoundTrip(mimeType: string, payload: string)
    requires ',' !in mimeType
    ensures ParseDataUri(DataUri(mimeType, payload)) == Some((mimeType, payload))
  {
    var uri := DataUri(mimeType, payload);
    assert StartsWith(uri, SCHEME);
    var rest := uri[|SCHEME|..];
    var header := mimeType + BASE64_PARAM;
    assert rest == header + "," + payload;
    assert ',' !in header;
    assert rest[|header|] == ',';
    FirstIndexOfAfter(header, ',', payload);
    assert rest[..|header|] == header;
    assert rest[|header| + 1..] == payload;
  }

  /** Conversely, every URI the parser accepts is exactly the URI built
      from what it read, and the media type read has no comma. */
  lemma ParseDataUriInverse(uri: string)
    requires ParseDataUri(uri).Some?
    ensures var (mimeType, payload) := ParseDataUri(uri).value;
            ',' !in mimeType && DataUri(mimeType, payload) == uri
  {
    var rest := uri[|SCHEME|..];
    var k := FirstIndexOf(rest, ',');
    var header := rest[..k];
    var mimeType := ParseHeader(header).value;
    var payload := rest[k + 1..];
    assert ParseDataUri(uri) == Some((mimeType, payload));
    assert ',' !in mimeType by {
      assert forall i :: 0 <= i < |mimeType| ==> mimeType[i] == header[i];
    }
    assert rest == header + [rest[k]] + payload;
    assert uri == uri[..|SCHEME|] + rest;
    DataUriAfterScheme(mimeType, payload);
  }

  /** The URI is the scheme followed by the header, a comma and the data. */
  lemma DataUriAfterScheme(mimeType: string, payload: string)
    ensures DataUri(mimeType, payload) == SCHEME + ((mimeType + BASE64_PARAM) + [','] + payload)
  {
  }

  /** The resource type requested: `video` for video media, `image` for
      everything else. */
  function ResourceTypeFor(mimeType: string): (t: string)
    ensures t == "video" || t == "image"
    ensures t == "video" <==> StartsWith(mimeType, "video/")
  {
    if StartsWith(mimeType, "video/") then "video" else "image"
  }

  /** The request `uploadMediaToCloudinary` sends for base64 data of the
      given type: its data URI, its resource type and the fixed folder. */
  function UploadRequest(base64Data: string, mimeType: string): Effect {
    CloudinaryUpload(DataUri(mimeType, base64Data), ResourceTypeFor(mimeType), FOLDER)
  }

  /** The request carries the media itself: its type and data read back
      from the file sent, which goes to the fixed folder as a video
      exactly for video types. */
  lemma UploadRequestCarriesMedia(base64Data: string, mimeType: string)
    requires ',' !in mimeType
    ensures var request := UploadRequest(base64Data, mimeType);
            ParseDataUri(request.file) == Some((mimeType, base64Data))
            && request.folder == FOLDER
            && (request.resourceType == "video" <==> StartsWith(mimeType, "video/"))
  {
    DataUriRoundTrip(mimeType, base64Data);
  }

  /** `uploadMediaToCloudinary(base64Data, mimeType)`: one upload request
      carrying the data URI, resource type and fixed folder; the SDK's
      secure URL on success; otherwise the SDK's error is logged and the
      fixed failure message is thrown. */
  function UploadMedia(base64Data: string, mimeType: string, sdk: Result<string>): (st: Step<string>)
    ensures |st.effects| == (if sdk.Ok? then 1 else 2) && st.effects[0] == UploadRequest(base64Data, mimeType)
    ensures sdk.Err? ==> st.effects[1] == Log(Error, UploadErrorLog(sdk.message))
    ensures st.effects[0].folder == FOLDER
    ensures st.effects[0].resourceType == "video" <==> StartsWith(mimeType, "video/")
    ensures ',' !in mimeType ==> ParseDataUri(st.effects[0].file) == Some((mimeType, base64Data))
    ensures st.result.Ok? <==> sdk.Ok?
    ensures sdk.Ok? ==> st.result.value == sdk.value
    ensures sdk.Err? ==> st.result.message == UPLOAD_FAILURE
  {
    var request := UploadRequest(base64Data, mimeType);
    assert ',' !in mimeType ==> ParseDataUri(request.file) == Some((mimeType, base64Data)) by {
      if ',' !in mimeType {
        DataUriRoundTrip(mimeType, base64Data);
      }
    }
    match sdk
    case Ok(secureUrl) => Step([request], Ok(secureUrl))
    case Err(m) => Step([request, Log(Error, UploadErrorLog(m))], Err(UPLOAD_FAILURE))
  }
}
