/**
 * Base64HttpRequestRecordWriter: the vanilla writer, which formats each
 * record on the caller's thread and writes the line straight to its target,
 * and the factory that picks it or the queue writer.
 */
module Base64RecordWriter {
  import opened Wrappers
  import opened Jvm
  import opened Api
  import RecordLine
  import opened WriterTarget
  import QueueRecordWriter

  class Base64Writer {
    const target: Target
    /** The date formatter applied to the record timestamp. */
    const formatDate: Int64 -> JString

    constructor (target: Target, formatDate: Int64 -> JString)
      ensures this.target == target && this.formatDate == formatDate
    {
      this.target := target;
      this.formatDate := formatDate;
    }

    /**
     * `write`: the complete line goes to `target.write` exactly once; any
     * exception, from framing or from the target, is rethrown as a
     * RuntimeException naming the record id, and a framing failure never
     * reaches the target.
     */
    method Write(record: Record) returns (o: Outcome<JavaException>)
      modifies target
      ensures target.flushes == old(target.flushes)
      ensures var line := RecordLine.Serialize(record, formatDate(record.timestamp));
        && (line.Failure? ==>
              o == Fail(RuntimeException(RecordLine.FailureMessage(record.id), line.error))
              && target.lines == old(target.lines))
        && (line.Success? && target.writeFails(old(target.lines)) ==>
              o == Fail(RuntimeException(RecordLine.FailureMessage(record.id), IOException))
              && target.lines == old(target.lines))
        && (line.Success? && !target.writeFails(old(target.lines)) ==>
              o == Pass && target.lines == old(target.lines) + [line.value])
    {
      var line := RecordLine.BuildLine(record, formatDate(record.timestamp));
      if line.Failure? {
        return Fail(RuntimeException(RecordLine.FailureMessage(record.id), line.error));
      }
      o := target.Write(line.value);
      if o.Fail? {
        o := Fail(RuntimeException(RecordLine.FailureMessage(record.id), o.error));
      }
    }

    /** `isReady`: the vanilla writer is always ready. */
    method IsReady() returns (r: bool)
      ensures r
    {
      r := true;
    }

    /** `close` does nothing. */
    method Close()
      ensures unchanged(target)
    {
    }
  }

  /** The writer the factory hands out. */
  datatype RecordWriter =
    | Vanilla(vanilla: Base64Writer)
    | Queued(queued: QueueRecordWriter.QueueWriter)

  /**
   * `createBase64HttpRequestRecordWriter`: the vanilla writer exactly when the
   * `use.hrrs.vanilla` system property is set (to any value), the queue writer
   * otherwise; `now` is the clock reading the queue writer keeps as `lastFlush`.
   */
  method CreateWriter(target: Target, formatDate: Int64 -> JString, vanillaProperty: Option<JString>,
                      worker: QueueRecordWriter.WorkerState, now: Int64) returns (w: RecordWriter)
    requires worker.Valid()
    modifies worker
    ensures w.Vanilla? <==> vanillaProperty.Some?
    ensures w.Vanilla? ==> w.vanilla.target == target && w.vanilla.formatDate == formatDate && unchanged(worker)
    ensures w.Queued? ==>
      && w.queued.target == target && w.queued.formatDate == formatDate && w.queued.worker == worker
      && w.queued.lastFlush == now && w.queued.Valid()
    ensures w.Queued? ==>
      && worker.action == w.queued && worker.queue == old(worker.queue)
      && worker.stop == old(worker.stop) && worker.running == old(worker.running)
  {
    if vanillaProperty.Some? {
      var vanilla := new Base64Writer(target, formatDate);
      return Vanilla(vanilla);
    }
    var queued := new QueueRecordWriter.QueueWriter(target, formatDate, worker, now);
    w := Queued(queued);
  }

  /**
   * Both writers produce the same line for the same record: the one line the
   * vanilla writer's target receives is the serialized record, and it is
   * exactly what the queue writer appends to the queue.
   */
  method SameLine(record: Record, vanilla: Base64Writer, queued: QueueRecordWriter.QueueWriter)
    returns (written: seq<JString>, enqueued: seq<JString>)
    requires queued.Valid() && |queued.worker.queue| < QueueRecordWriter.CAPACITY
    requires !vanilla.target.writeFails(vanilla.target.lines) && vanilla.formatDate == queued.formatDate
    requires RecordLine.Serialize(record, vanilla.formatDate(record.timestamp)).Success?
    modifies vanilla.target, queued.worker
    ensures written == [RecordLine.Serialize(record, vanilla.formatDate(record.timestamp)).value]
    ensures vanilla.target.lines == old(vanilla.target.lines) + written
    ensures queued.worker.queue == old(queued.worker.queue) + enqueued
    ensures written == enqueued
  {
    var before := |vanilla.target.lines|;
    var qBefore := |queued.worker.queue|;
    var o1 := vanilla.Write(record);
    var o2 := queued.Write(record);
    written := vanilla.target.lines[before..];
    enqueued := queued.worker.queue[qBefore..];
  }
}
