/** One entry of an app bundle (`FileContentJson` in shinylive/_app_json.py
    and shinylive/_url.py): a file name relative to the app directory, its
    content, and the optional `type` key, which says whether the content is
    text or base64-encoded binary data. */
module Files {
  import opened Outcomes

  datatype FileType = Text | Binary

  datatype FileContent = FileContent(name: string, content: string, fileType: Option<FileType>)

  /** A file as the app readers find it on disk: its text, or the base64
      text of its bytes when it is not valid UTF-8. */
  datatype DiskFile = DiskFile(content: string, fileType: FileType)
}
