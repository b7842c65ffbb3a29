/**
  The two calls the admin console makes to the hosting API's contents
  endpoint: `updateFile` (write a JSON collection) and `uploadBinaryFile`
  (probe for an existing file, then create or replace it). The network is a
  function parameter that answers each request.
*/
module Hosting {
  import opened Wrappers
  import opened AdminCodec
  import opened Text

  /** The body of a contents `PUT`: create the file with this base64 content, or replace the version named by `sha`. */
  datatype Write = Write(path: string, message: string, content: string, sha: Option<string>)

  /** The answer to a `PUT`: the new version's sha, or the error message of a refused write ("" when it has none). */
  datatype PutResponse = Written(sha: string) | Refused(message: string)

  /** The answer to the `GET` that precedes an upload. */
  datatype Probe =
    | Found(sha: Option<string>)              // an ok response; its `sha` field, if any
    | NotOk(status: int, message: string)     // a response that is not ok
    | Unreachable(message: string)            // the request or its JSON body threw

  /** The `sha` field a request carries: present exactly when a non-empty sha is known. */
  function ShaField(sha: Option<string>): (r: Option<string>)
    ensures r.Some? <==> sha.Some? && sha.value != ""
    ensures r.Some? ==> r == sha
  {
    if sha.Some? && sha.value != "" then sha else None
  }

  /** The request `updateFile` sends for the serialised document `json`. */
  function UpdateRequest(utf8: TextCodec, path: string, json: string, sha: Option<string>, message: string): (w: Write)
    ensures w.path == path && w.message == message
    ensures w.sha.Some? <==> sha.Some? && sha.value != ""
    ensures w.sha.Some? ==> w.sha == sha
  {
    Write(path, message, EncodedText(utf8, json), ShaField(sha))
  }

  /**
    The content `updateFile` sends decodes back to the serialised document,
    less a leading byte order mark (which JSON text never starts with).
  */
  lemma UpdateRequestCarries(utf8: TextCodec, path: string, json: string, sha: Option<string>, message: string)
    requires RoundTrips(utf8)
    ensures DecodedText(utf8, UpdateRequest(utf8, path, json, sha, message).content) == Some(WithoutBom(json))
    ensures json == [] || json[0] != ByteOrderMark ==>
      DecodedText(utf8, UpdateRequest(utf8, path, json, sha, message).content) == Some(json)
  {
    DecodeEncodedText(utf8, json);
  }

  /** `updateFile`: the sha of the written version, or the message of the error it throws. */
  function UpdateFile(utf8: TextCodec, path: string, json: string, sha: Option<string>, message: string,
                      put: Write -> PutResponse): (r: Result<string, string>)
    ensures r.Success? <==> put(UpdateRequest(utf8, path, json, sha, message)).Written?
    ensures r.Success? ==> r.value == put(UpdateRequest(utf8, path, json, sha, message)).sha
    ensures r.Failure? ==> r.error != ""
    ensures r.Failure? && put(UpdateRequest(utf8, path, json, sha, message)).message != "" ==>
      r.error == put(UpdateRequest(utf8, path, json, sha, message)).message
    ensures r.Failure? && put(UpdateRequest(utf8, path, json, sha, message)).message == "" ==>
      r.error == "Impossible de mettre à jour " + path
  {
    match put(UpdateRequest(utf8, path, json, sha, message))
    case Written(s) => Success(s)
    case Refused(m) => Failure(OrElse(m, "Impossible de mettre à jour " + path))
  }

  /**
    The sha an upload sends, from the probe: the found file's sha, none when the
    probe answered 404 (the file is created), and an error before any write
    for every other failure.
  */
  function UploadSha(path: string, probe: Probe): (r: Result<Option<string>, string>)
    ensures r.Success? <==> probe.Found? || (probe.NotOk? && probe.status == 404)
    ensures probe.Found? ==> r == Success(ShaField(probe.sha))
    ensures probe.NotOk? && probe.status == 404 ==> r == Success(None)
    ensures r.Success? ==> r.value.Some? ==> r.value.value != ""
  {
    match probe
    case Found(sha) => Success(ShaField(sha))
    case NotOk(status, message) =>
      if status == 404 then Success(None)
      else Failure(OrElse(message, "Impossible de vérifier " + path))
    case Unreachable(message) => Failure(message)
  }

  /** The request `uploadBinaryFile` sends, or the error that stops it before any write. */
  function UploadRequest(path: string, base64: string, message: string, probe: Probe): (r: Result<Write, string>)
    ensures r.Success? <==> UploadSha(path, probe).Success?
    ensures r.Success? ==> r.value == Write(path, message, base64, UploadSha(path, probe).value)
  {
    match UploadSha(path, probe)
    case Failure(e) => Failure(e)
    case Success(sha) => Success(Write(path, message, base64, sha))
  }

  /** `uploadBinaryFile`: the sha of the uploaded version, or the message of the error it throws. */
  function UploadBinaryFile(path: string, base64: string, message: string, probe: Probe,
                            put: Write -> PutResponse): (r: Result<string, string>)
    ensures r.Success? <==>
      UploadRequest(path, base64, message, probe).Success? && put(UploadRequest(path, base64, message, probe).value).Written?
    ensures r.Success? ==> r.value == put(UploadRequest(path, base64, message, probe).value).sha
    ensures UploadRequest(path, base64, message, probe).Failure? ==> r == Failure(UploadSha(path, probe).error)
  {
    match UploadRequest(path, base64, message, probe)
    case Failure(e) => Failure(e)
    case Success(w) =>
      match put(w)
      case Written(s) => Success(s)
      case Refused(m) => Failure(OrElse(m, "Impossible de téléverser " + path))
  }
}
