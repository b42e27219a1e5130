/**
 * `OutputWriter`: writes one result map as a JSON document into a new file named after the
 * current date and time. The formatted timestamp (`yyyyMMdd-HHmmss`), whether the file can be
 * opened and whether the write and flush succeed are parameters.
 */
module ResultsWriter {
  import opened Wrappers
  import Json
  import opened JsonBuilder

  class OutputWriter {
    const outputDirectory: string

    constructor (outputDirectory: string)
      ensures this.outputDirectory == outputDirectory
    {
      this.outputDirectory := outputDirectory;
    }

    /** `writeResults`: the file `accidents-analysis-<timestamp>.json` in the output directory,
      * holding exactly the document the output operator writes for the same results. When the
      * file cannot be opened there is no file; when writing or flushing fails the opened file holds
      * only a prefix of the document. Either failure is the `IOException` passed to the caller. */
    method WriteResults(results: seq<(string, Json.Value)>, timestamp: string, canOpen: bool, written: bool)
      returns (file: Option<OutputFile>, failed: bool)
      ensures canOpen <==> file.Some?
      ensures failed <==> !(canOpen && written)
      ensures file.Some? ==> file.value.directory == outputDirectory && file.value.name == OutputFileName(timestamp)
      ensures file.Some? && written ==> file.value.contents == Json.Document(results)
      ensures file.Some? ==> file.value.contents <= Json.Document(results)
    {
      if !canOpen {
        return None, true;
      }
      var json := BuildDocument(results);
      if !written {
        var cut :| 0 <= cut <= |json|;
        return Some(OutputFile(outputDirectory, OutputFileName(timestamp), json[..cut])), true;
      }
      return Some(OutputFile(outputDirectory, OutputFileName(timestamp), json)), false;
    }
  }
}
