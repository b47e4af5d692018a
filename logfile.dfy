/** An open text file: its contents so far and a read cursor. */
module LogFile {
  import opened Lines

  /** The handle `open(file_path)` returns. Another process may append to
      the file while the server holds it open. */
  class LogHandle {
    var data: string  // the file's contents, as decoded text
    var pos: nat      // the read cursor

    ghost predicate Valid()
      reads this
    {
      pos <= |data|
    }

    constructor Open(contents: string)
      ensures Valid() && data == contents && pos == 0
    {
      data := contents;
      pos := 0;
    }

    /** `readline()`: the next line with its '\n', or "" at the end of the file. */
    method ReadLine() returns (line: string)
      requires Valid()
      modifies this
      ensures Valid() && data == old(data) && pos == old(pos) + |line|
      ensures line == [] <==> old(pos) == |data|
      ensures line != [] ==> SplitLines(old(data)[old(pos)..]) == [line] + SplitLines(data[pos..])
    {
      var rest := data[pos..];
      var n := LineLength(rest);
      line := rest[..n];
      assert rest[n..] == data[pos + n..];
      pos := pos + n;
    }

    /** `read()`: everything from the cursor to the end of the file. */
    method Read() returns (content: string)
      requires Valid()
      modifies this
      ensures Valid() && data == old(data) && pos == |data|
      ensures content == old(data)[old(pos)..]
    {
      content := data[pos..];
      pos := |data|;
    }

    /** Another process appends to the file; the cursor stays where it is. */
    method Append(more: string)
      requires Valid()
      modifies this
      ensures Valid() && data == old(data) + more && pos == old(pos)
    {
      data := data + more;
    }
  }
}
