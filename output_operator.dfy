/**
 * `AccidentOutputOperator`: writes every result map it receives as a JSON document into the
 * current output file, and starts a new file once the rotation interval has elapsed.
 *
 * The file system is the sequence of files created so far; the writer is the index of the open
 * one, or none for `null`. Whether closing, creating or writing a file succeeds, and the current
 * time, are parameters.
 */
module OutputOperator {
  import opened Wrappers
  import opened Text
  import Json
  import opened JsonBuilder

  /** Whether a rotation is due: `currentTime - lastFileRotateTime >= fileRotateInterval`. */
  predicate RotationDue(now: int, lastRotate: int, interval: int) {
    now - lastRotate >= interval
  }

  /** The files after `checkFileRotation`: one more, named after `now`, when a due rotation created
    * its file. */
  function RotatedFiles(files: seq<OutputFile>, lastRotate: int, interval: int, directory: string, now: int, created: bool): seq<OutputFile> {
    if RotationDue(now, lastRotate, interval) && created
    then files + [OutputFile(directory, OutputFileName(IntToString(now)), "")]
    else files
  }

  /** The writer after `checkFileRotation`: the new file after a successful rotation; after a
    * failed one, `null` if the old writer was closed; otherwise the old writer. */
  function RotatedWriter(writer: Option<nat>, fileCount: nat, lastRotate: int, interval: int, now: int, closed: bool, created: bool): Option<nat> {
    if !RotationDue(now, lastRotate, interval) then writer
    else if created then Some(fileCount)
    else if writer.Some? && closed then None
    else writer
  }

  /** The files after `writeResults`: the document appended to the open file when there is one
    * and the write succeeds. */
  function AfterWrite(files: seq<OutputFile>, writer: Option<nat>, written: bool, document: string): seq<OutputFile>
    requires writer.Some? ==> writer.value < |files|
  {
    if writer.Some? && written
    then files[writer.value := files[writer.value].(contents := files[writer.value].contents + document)]
    else files
  }

  class AccidentOutputOperator {
    var outputDirectory: string
    /** The open file: an index into `files`, none when the writer is `null`. */
    var writer: Option<nat>
    var fileRotateInterval: int
    var lastFileRotateTime: int
    /** Every file created so far, oldest first. */
    var files: seq<OutputFile>

    ghost predicate Valid()
      reads this
    {
      writer.Some? ==> writer.value < |files|
    }

    /** A new operator: no writer yet, a one-hour rotation interval, last rotation at 0. */
    constructor ()
      ensures Valid()
      ensures outputDirectory == "/tmp/usaccidents-output" && writer == None && files == []
      ensures fileRotateInterval == 3600000 && lastFileRotateTime == 0
    {
      outputDirectory := "/tmp/usaccidents-output";
      writer := None;
      fileRotateInterval := 3600000;
      lastFileRotateTime := 0;
      files := [];
    }

    method SetOutputDirectory(directory: string)
      modifies this
      ensures outputDirectory == directory
      ensures writer == old(writer) && files == old(files)
      ensures fileRotateInterval == old(fileRotateInterval) && lastFileRotateTime == old(lastFileRotateTime)
    {
      outputDirectory := directory;
    }

    method SetFileRotateInterval(interval: int)
      modifies this
      ensures fileRotateInterval == interval
      ensures outputDirectory == old(outputDirectory) && writer == old(writer) && files == old(files)
      ensures lastFileRotateTime == old(lastFileRotateTime)
    {
      fileRotateInterval := interval;
    }

    /** `createNewOutputFile`: when the file can be created, an empty file named after the time
      * is added and becomes the writer; otherwise the exception leaves everything as it was. */
    method CreateNewOutputFile(now: int, created: bool) returns (ok: bool)
      requires Valid()
      modifies this
      ensures Valid() && ok == created
      ensures created ==>
                && files == old(files) + [OutputFile(outputDirectory, OutputFileName(IntToString(now)), "")]
                && writer == Some(|old(files)|)
      ensures !created ==> files == old(files) && writer == old(writer)
      ensures outputDirectory == old(outputDirectory) && fileRotateInterval == old(fileRotateInterval)
      ensures lastFileRotateTime == old(lastFileRotateTime)
    {
      if !created {
        return false;
      }
      var timestamp := IntToString(now);
      files := files + [OutputFile(outputDirectory, OutputFileName(timestamp), "")];
      writer := Some(|files| - 1);
      return true;
    }

    /** `closeWriter`: the writer becomes `null` only when flushing and closing succeed; a
      * failure is logged and the writer is kept. */
    method CloseWriter(closed: bool)
      requires Valid()
      modifies this
      ensures Valid()
      ensures writer == if old(writer).Some? && closed then None else old(writer)
      ensures files == old(files) && outputDirectory == old(outputDirectory)
      ensures fileRotateInterval == old(fileRotateInterval) && lastFileRotateTime == old(lastFileRotateTime)
    {
      if writer.Some? && closed {
        writer := None;
      }
    }

    /** `checkFileRotation` at time `now`: when a rotation is due the writer is closed and a new
      * file created, and the rotation time moves to `now` only if the creation succeeded; after a
      * failed creation the rotation stays due, so every later input retries it. */
    method CheckFileRotation(now: int, closed: bool, created: bool)
      requires Valid()
      modifies this
      ensures Valid()
      ensures !RotationDue(now, old(lastFileRotateTime), fileRotateInterval) ==>
                writer == old(writer) && files == old(files) && lastFileRotateTime == old(lastFileRotateTime)
      ensures RotationDue(now, old(lastFileRotateTime), fileRotateInterval) && created ==>
                && files == old(files) + [OutputFile(outputDirectory, OutputFileName(IntToString(now)), "")]
                && writer == Some(|old(files)|)
                && lastFileRotateTime == now
      ensures RotationDue(now, old(lastFileRotateTime), fileRotateInterval) && !created ==>
                && files == old(files)
                && writer == (if old(writer).Some? && closed then None else old(writer))
                && lastFileRotateTime == old(lastFileRotateTime)
                && forall later :: later >= now ==> RotationDue(later, lastFileRotateTime, fileRotateInterval)
      ensures outputDirectory == old(outputDirectory) && fileRotateInterval == old(fileRotateInterval)
    {
      if now - lastFileRotateTime >= fileRotateInterval {
        CloseWriter(closed);
        var ok := CreateNewOutputFile(now, created);
        if ok {
          lastFileRotateTime := now;
        }
      }
    }

    /** `writeResults`: with a writer, the document for the results is appended to the open file
      * when the write succeeds; without one (`null`) nothing is written. */
    method WriteResults(results: seq<(string, Json.Value)>, written: bool)
      requires Valid()
      modifies this
      ensures Valid()
      ensures old(writer).None? || !written ==> files == old(files)
      ensures old(writer).Some? && written ==>
                var w := old(writer).value;
                && |files| == |old(files)|
                && files[w] == old(files)[w].(contents := old(files)[w].contents + Json.Document(results))
                && forall i :: 0 <= i < |files| && i != w ==> files[i] == old(files)[i]
      ensures writer == old(writer) && outputDirectory == old(outputDirectory)
      ensures fileRotateInterval == old(fileRotateInterval) && lastFileRotateTime == old(lastFileRotateTime)
    {
      if writer.None? {
        return;
      }
      var json := BuildDocument(results);
      if written {
        var w := writer.value;
        files := files[w := files[w].(contents := files[w].contents + json)];
      }
    }

    /** The input port: rotate if due, then write the results into whatever file is open after the
      * rotation. */
    method Process(results: seq<(string, Json.Value)>, now: int, closed: bool, created: bool, written: bool)
      requires Valid()
      modifies this
      ensures Valid()
      ensures var rotatedFiles := RotatedFiles(old(files), old(lastFileRotateTime), fileRotateInterval, outputDirectory, now, created);
              && writer == RotatedWriter(old(writer), |old(files)|, old(lastFileRotateTime), fileRotateInterval, now, closed, created)
              && files == AfterWrite(rotatedFiles, writer, written, Json.Document(results))
      ensures lastFileRotateTime == if RotationDue(now, old(lastFileRotateTime), fileRotateInterval) && created
                                    then now else old(lastFileRotateTime)
      ensures outputDirectory == old(outputDirectory) && fileRotateInterval == old(fileRotateInterval)
    {
      CheckFileRotation(now, closed, created);
      WriteResults(results, written);
    }

    /** `setup` at time `now`: fails when the output directory can be neither found nor made;
      * otherwise the rotation time becomes `now` and the first file is created, and a failure to
      * create it fails the setup. */
    method Setup(now: int, directoryReady: bool, created: bool) returns (ok: bool)
      requires Valid()
      modifies this
      ensures Valid()
      ensures ok == (directoryReady && created)
      ensures !directoryReady ==> files == old(files) && writer == old(writer) && lastFileRotateTime == old(lastFileRotateTime)
      ensures directoryReady ==> lastFileRotateTime == now
      ensures directoryReady && created ==>
                && files == old(files) + [OutputFile(outputDirectory, OutputFileName(IntToString(now)), "")]
                && writer == Some(|old(files)|)
      ensures directoryReady && !created ==> files == old(files) && writer == old(writer)
      ensures outputDirectory == old(outputDirectory) && fileRotateInterval == old(fileRotateInterval)
    {
      if !directoryReady {
        return false;
      }
      lastFileRotateTime := now;
      ok := CreateNewOutputFile(now, created);
    }

    /** `teardown`: close the writer. */
    method Teardown(closed: bool)
      requires Valid()
      modifies this
      ensures Valid()
      ensures writer == if old(writer).Some? && closed then None else old(writer)
      ensures files == old(files) && lastFileRotateTime == old(lastFileRotateTime)
      ensures outputDirectory == old(outputDirectory) && fileRotateInterval == old(fileRotateInterval)
    {
      CloseWriter(closed);
    }
  }
}
