/** `fileFilter` of middleware/cloudinaryUpload.js: which uploads multer keeps. */
module UploadFilter {
  import opened Types

  /** The fields multer describes an uploaded file with. */
  datatype UploadedFile = UploadedFile(fieldname: string, originalname: string, encoding: string, mimetype: string, size: nat)

  /** The two arguments passed to multer's callback: an error, and whether to keep the file. */
  datatype Verdict = Verdict(error: Option<string>, accept: bool)

  const Png := "image/png"
  const Jpg := "image/jpg"
  const Jpeg := "image/jpeg"

  /** Keep PNG and JPEG images, compared as exact strings; never report an error. */
  function FileFilter<R>(req: R, file: UploadedFile): (v: Verdict)
    ensures v.error == None
    ensures v.accept <==> file.mimetype in {Png, Jpg, Jpeg}
  {
    if file.mimetype == Png || file.mimetype == Jpg || file.mimetype == Jpeg then
      Verdict(None, true)
    else
      Verdict(None, false)
  }

  /** The verdict depends on the mimetype alone, not on the request or the
      file's other fields. */
  lemma VerdictDependsOnMimetypeOnly<R>(req1: R, req2: R, f1: UploadedFile, f2: UploadedFile)
    requires f1.mimetype == f2.mimetype
    ensures FileFilter(req1, f1) == FileFilter(req2, f2)
  {
  }

  /** Every accepted file declares an image type. */
  lemma AcceptedFilesAreImages<R>(req: R, file: UploadedFile)
    requires FileFilter(req, file).accept
    ensures |file.mimetype| > 6 && file.mimetype[..6] == "image/"
  {
  }

  /** The comparison is case-sensitive: an upper-case type is refused. */
  lemma UpperCaseIsRefused<R>(req: R, file: UploadedFile)
    requires file.mimetype == "IMAGE/PNG" || file.mimetype == "image/PNG" || file.mimetype == "IMAGE/JPEG"
    ensures !FileFilter(req, file).accept
  {
  }
}
