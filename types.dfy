/** The records shared by the conversion service and the converter hook. */
module Types {
  import opened Wrappers
  import opened Lottie

  datatype FileStatus = Parsing | Ready | Converting | Success | Error

  /** What the interface shows about a parsed document. */
  datatype LottieMetadata = LottieMetadata(width: real, height: real, duration: real, frameRate: int)

  /**
   * What reading a file's text and decoding it as JSON gives: the read fails, the
   * text is not JSON (or decodes to `null`, whose fields cannot be read), or a
   * document. A JSON value that is not an object is a document with every field absent.
   */
  datatype Content = ReadFailure | Malformed | Decoded(doc: Document)

  /** A file the user supplied: its name, its declared media type and its content. */
  datatype SourceFile = SourceFile(name: string, mediaType: string, content: Content)

  /** One entry of the converter's file list. */
  datatype LottieFile = LottieFile(
    id: string,
    originalFile: SourceFile,
    lottieData: Option<Document>,
    status: FileStatus,
    metadata: Option<LottieMetadata>,
    errorMessage: Option<string>)
}
