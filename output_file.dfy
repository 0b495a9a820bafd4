/** The text file the generator writes through: Python's file object as the
    script uses it. Opening with mode "w" truncates, `write` appends its
    argument, `close` ends the writing. The file's content is the text
    written so far. */
module OutputFile {

  class OutFile {
    const name: string
    var text: string
    var isOpen: bool

    /** `open(name, "w")`: whatever the file held before is gone. */
    constructor Open(name: string)
      ensures this.name == name
      ensures text == [] && isOpen
    {
      this.name := name;
      text := [];
      isOpen := true;
    }

    /** `write(s)`: s is appended, nothing written earlier changes. */
    method Write(s: string)
      requires isOpen
      modifies this
      ensures isOpen
      ensures text == old(text) + s
    {
      text := text + s;
    }

    /** `close()`: the content stays as written, further writes are refused. */
    method Close()
      modifies this
      ensures !isOpen
      ensures text == old(text)
    {
      isOpen := false;
    }
  }
}
