/** What a `fs.readFile` call can produce: the file system itself is not part of the model,
    so every read is passed in as one of these values. */
module FileIo {

  datatype ReadResult =
    | Contents(text: string)   // the file was read as UTF-8 text
    | NotFound                 // the read threw an error with code ENOENT
    | ReadFailed               // the read threw any other error
}
