/**
 The upload endpoint: a file of at most 10 MiB is stored with the media host
 and classified by its MIME type into the message type the client sends
 with it. The media host is a parameter: the URL it returned, or nothing
 when the upload failed.
 */
module UploadApi {
  import opened Base
  import opened Domain
  import MessagesApi

  const MaxUploadBytes: nat := 10 * 1024 * 1024

  datatype Upload = Upload(name: string, size: nat, mimeType: string)

  datatype Uploaded = Uploaded(url: string, kind: MessageType, filename: string, size: nat, mimeType: string)

  /** The first matching rule wins: image, video, audio prefixes, then "pdf" or "document" anywhere, else file. */
  function Classify(mime: string): MessageType
  {
    if StartsWith(mime, "image/") then Image
    else if StartsWith(mime, "video/") then Video
    else if StartsWith(mime, "audio/") then Audio
    else if Includes(mime, "pdf") || Includes(mime, "document") then Document
    else File
  }

  /**
   Each class, characterised on its own: a type is an image exactly when it
   starts with "image/", a video when it starts with "video/" and not
   "image/", and so on down the priority list.
   */
  lemma ClassifyCases(mime: string)
    ensures Classify(mime) == Image <==> StartsWith(mime, "image/")
    ensures Classify(mime) == Video <==> !StartsWith(mime, "image/") && StartsWith(mime, "video/")
    ensures Classify(mime) == Audio <==>
      !StartsWith(mime, "image/") && !StartsWith(mime, "video/") && StartsWith(mime, "audio/")
    ensures Classify(mime) == Document <==>
      && !StartsWith(mime, "image/") && !StartsWith(mime, "video/") && !StartsWith(mime, "audio/")
      && (Includes(mime, "pdf") || Includes(mime, "document"))
    ensures Classify(mime) == File <==>
      && !StartsWith(mime, "image/") && !StartsWith(mime, "video/") && !StartsWith(mime, "audio/")
      && !Includes(mime, "pdf") && !Includes(mime, "document")
    ensures Classify(mime) in {Image, Video, Audio, Document, File}
  {
  }

  /** Concrete instances of the priority: a prefix beats a "pdf" or "document" substring. */
  lemma ClassifyExamples()
    ensures Classify("image/png") == Image
    ensures Classify("application/pdf") == Document
    ensures Classify("video/x-document") == Video
  {
    assert StartsWith("image/png", "image/");
    var pdf := "application/pdf";
    assert pdf[0] == 'a' && pdf[1] == 'p';
    assert !StartsWith(pdf, "image/") && !StartsWith(pdf, "video/") && !StartsWith(pdf, "audio/");
    assert pdf[12..15] == "pdf" by {
      assert pdf[12] == 'p' && pdf[13] == 'd' && pdf[14] == 'f';
    }
    assert OccursAt(pdf, "pdf", 12);
    assert StartsWith("video/x-document", "video/");
  }

  function Receive(file: Option<Upload>, hosted: Option<string>): Reply<Uploaded>
  {
    match file
    case None => Fail(400, "No file uploaded")
    case Some(f) =>
      if f.size > MaxUploadBytes then Fail(400, "File too large (max 10MB)")
      else
        match hosted
        case None => Fail(500, "Upload failed")
        case Some(url) => Ok(Uploaded(url, Classify(f.mimeType), f.name, f.size, f.mimeType))
  }

  /**
   A missing file is refused, then a file over 10 MiB; exactly 10 MiB is
   accepted. An accepted file is answered with its own name, size and MIME
   type and the host's URL.
   */
  lemma ReceiveCases(file: Option<Upload>, hosted: Option<string>)
    ensures file.None? ==> Receive(file, hosted) == Fail(400, "No file uploaded")
    ensures file.Some? && file.value.size > 10485760 ==> Receive(file, hosted) == Fail(400, "File too large (max 10MB)")
    ensures file.Some? && file.value.size <= 10485760 && hosted.None? ==> Receive(file, hosted) == Fail(500, "Upload failed")
    ensures file.Some? && file.value.size <= 10485760 && hosted.Some? ==>
      var r := Receive(file, hosted);
      && r.Ok? && r.body.url == hosted.value && r.body.filename == file.value.name
      && r.body.size == file.value.size && r.body.mimeType == file.value.mimeType
      && r.body.kind == Classify(file.value.mimeType)
  {
  }

  /** The size limit's edge: 10 485 760 bytes pass, one more byte does not. */
  lemma SizeBoundary(name: string, mime: string, url: string)
    ensures Receive(Some(Upload(name, 10485760, mime)), Some(url)).Ok?
    ensures Receive(Some(Upload(name, 10485761, mime)), Some(url)) == Fail(400, "File too large (max 10MB)")
  {
  }

  /** The chat preview of an uploaded file names its class. */
  lemma UploadPreviewNamesKind(f: Upload, url: string, text: string)
    requires Receive(Some(f), Some(url)).Ok?
    ensures var k := Receive(Some(f), Some(url)).body.kind;
      MessagesApi.LabelKind(MessagesApi.LastMessageText(MessageTypeName(k), text)) == Some(k)
  {
    MessagesApi.PreviewCases(Classify(f.mimeType), text);
  }
}
