/**
 * The HttpRequestRecordWriterTarget<String> the writers hand lines to: it
 * keeps every line written, in order, and a log of flushes.
 */
module WriterTarget {
  import opened Wrappers
  import opened Jvm

  class Target {
    /** Every line `write` accepted, in call order. */
    var lines: seq<JString>
    /** For each successful `flush`, how many lines had been written when it ran. */
    var flushes: seq<nat>
    /** Whether `write` throws an IOException, given the lines the target already holds. */
    const writeFails: seq<JString> -> bool
    /** Whether `flush` throws an IOException, given the lines the target holds. */
    const flushFails: seq<JString> -> bool

    constructor (writeFails: seq<JString> -> bool, flushFails: seq<JString> -> bool)
      ensures lines == [] && flushes == []
      ensures this.writeFails == writeFails && this.flushFails == flushFails
    {
      lines := [];
      flushes := [];
      this.writeFails := writeFails;
      this.flushFails := flushFails;
    }

    /** A target whose `write` and `flush` never throw. */
    ghost predicate Reliable()
    {
      forall ls :: !writeFails(ls) && !flushFails(ls)
    }

    method Write(line: JString) returns (o: Outcome<JavaException>)
      modifies this
      ensures writeFails(old(lines)) ==> o == Fail(IOException) && lines == old(lines)
      ensures !writeFails(old(lines)) ==> o == Pass && lines == old(lines) + [line]
      ensures flushes == old(flushes)
    {
      if writeFails(lines) {
        return Fail(IOException);
      }
      lines := lines + [line];
      o := Pass;
    }

    method Flush() returns (o: Outcome<JavaException>)
      modifies this
      ensures flushFails(lines) ==> o == Fail(IOException) && flushes == old(flushes)
      ensures !flushFails(lines) ==> o == Pass && flushes == old(flushes) + [|lines|]
      ensures lines == old(lines)
    {
      if flushFails(lines) {
        return Fail(IOException);
      }
      flushes := flushes + [|lines|];
      o := Pass;
    }
  }
}
