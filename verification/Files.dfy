/** A file on disk, shared by the objects that open it by name. */
module Files {
  class File {
    var present: bool
    var bytes: string

    constructor (present: bool, bytes: string)
      ensures this.present == present && this.bytes == bytes
    {
      this.present := present;
      this.bytes := bytes;
    }
  }
}
