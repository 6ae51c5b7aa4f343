/** The export dialog: the file-name guard on its positive button, and the
    export of the held records as one line each into a new file under the
    export folder.

    The file system is a map from existing paths to their contents. Opening
    the file can fail with an IOException (`CreateFails`) and so can opening
    or writing its stream (`WriteFails`), after some of the text reached the
    file; both are caught, and the dialog then reports the
    export as done all the same. */
module ExportDialog {
  import opened Framer
  import opened Paths
  import BluetoothCommunicator

  /** Existing files and their contents. */
  type FileSystem = map<string, string>

  /** What the I/O calls do: all succeed, `createNewFile` throws, or the
      stream throws after the file was created, once `written` characters of
      the text have reached it. */
  datatype Io = IoOk | CreateFails | WriteFails(written: nat)

  /** The toast shown to the user. */
  datatype Toast = ProvideFileName | NothingToExport | FileToExportExists | FileExported(path: string)

  /** The outcome of an export: the file system afterwards and the toast. */
  datatype Exported = Exported(fs: FileSystem, toast: Toast)

  /** The outcome of a click on the positive button: also whether the dialog
      was dismissed. */
  datatype Clicked = Clicked(fs: FileSystem, toast: Toast, dismissed: bool)

  /** Each record followed by the line separator, records in order. */
  function ExportText(records: seq<string>, lineSeparator: string): (text: string)
    ensures |records| == 0 ==> text == []
    ensures |records| > 0 ==>
      && |records[0]| + |lineSeparator| <= |text|
      && text[..|records[0]|] == records[0]
      && text[|records[0]|..|records[0]| + |lineSeparator|] == lineSeparator
  {
    if |records| == 0 then []
    else records[0] + lineSeparator + ExportText(records[1..], lineSeparator)
  }

  /** The text of a concatenated log is the concatenation of the texts. */
  lemma {:induction false} ExportTextAppend(a: seq<string>, b: seq<string>, lineSeparator: string)
    ensures ExportText(a + b, lineSeparator) == ExportText(a, lineSeparator) + ExportText(b, lineSeparator)
    decreases |a|
  {
    if |a| == 0 {
      assert a + b == b;
    } else {
      assert (a + b)[0] == a[0];
      assert (a + b)[1..] == a[1..] + b;
      ExportTextAppend(a[1..], b, lineSeparator);
    }
  }

  /** With a newline separator the exported text is the records joined by
      newlines, closed by one more newline. */
  lemma {:induction false} ExportTextIsJoin(records: seq<string>)
    ensures ExportText(records, [Delimiter]) == JoinLines(records + [[]])
    decreases |records|
  {
    if |records| > 0 {
      var l := records + [[]];
      assert l[0] == records[0];
      assert l[1..] == records[1..] + [[]];
      ExportTextIsJoin(records[1..]);
    } else {
      assert records + [[]] == [[]];
    }
  }

  /** Records without newlines, exported with a newline separator, split back
      into the same records followed by the empty text after the last newline. */
  lemma ExportedLinesAreRecords(records: seq<string>)
    requires forall k :: 0 <= k < |records| ==> Delimiter !in records[k]
    ensures SplitLines(ExportText(records, [Delimiter])) == records + [[]]
  {
    var l := records + [[]];
    assert forall k :: 0 <= k < |l| ==> Delimiter !in l[k] by {
      forall k | 0 <= k < |l|
        ensures Delimiter !in l[k]
      {
        if k < |records| {
          assert l[k] == records[k];
        }
      }
    }
    ExportTextIsJoin(records);
    SplitJoin(l);
  }

  /** The loop filling the string builder. */
  method BuildText(records: seq<string>, lineSeparator: string) returns (text: string)
    ensures text == ExportText(records, lineSeparator)
  {
    text := [];
    var i := 0;
    while i < |records|
      invariant 0 <= i <= |records|
      invariant text + ExportText(records[i..], lineSeparator) == ExportText(records, lineSeparator)
    {
      ExportTextFrom(records, i, lineSeparator);
      ghost var rest := ExportText(records[i + 1..], lineSeparator);
      StringAssoc(text, records[i] + lineSeparator, rest);
      text := text + (records[i] + lineSeparator);
      i := i + 1;
    }
  }

  /** `ExportText` of a suffix, unfolded once. */
  lemma ExportTextFrom(records: seq<string>, i: int, lineSeparator: string)
    requires 0 <= i < |records|
    ensures ExportText(records[i..], lineSeparator) ==
            (records[i] + lineSeparator) + ExportText(records[i + 1..], lineSeparator)
  {
    assert records[i..][1..] == records[i + 1..];
  }

  /** Concatenation regrouped. */
  lemma StringAssoc(a: string, b: string, c: string)
    ensures (a + b) + c == a + (b + c)
  {
  }

  /** `export`: nothing to export without records; otherwise the file
      `fileLocation/fileName` is created unless it exists, and the text is
      written into it. */
  function Export(fs: FileSystem, fileName: string, receivedData: seq<string>, fileLocation: string,
                  lineSeparator: string, io: Io): (r: Exported)
    ensures |receivedData| == 0 ==> r == Exported(fs, NothingToExport)
    ensures |receivedData| > 0 && Join(fileLocation, fileName) in fs ==>
      r == Exported(fs, FileToExportExists)
    ensures |receivedData| > 0 && Join(fileLocation, fileName) !in fs ==>
      var path := Join(fileLocation, fileName);
      && r.toast == FileExported(path)
      && r.fs.Keys == fs.Keys + (if io == CreateFails then {} else {path})
      && (io == IoOk ==> r.fs[path] == ExportText(receivedData, lineSeparator))
      && (io.WriteFails? ==> r.fs[path] <= ExportText(receivedData, lineSeparator))
      && (io.WriteFails? && io.written < |ExportText(receivedData, lineSeparator)| ==> |r.fs[path]| == io.written)
      && (io == WriteFails(0) ==> r.fs[path] == [])
    ensures forall p :: p in fs ==> p in r.fs && r.fs[p] == fs[p]
  {
    if |receivedData| == 0 then Exported(fs, NothingToExport)
    else
      var text := ExportText(receivedData, lineSeparator);
      var path := Join(fileLocation, fileName);
      if path in fs then Exported(fs, FileToExportExists)
      else
        var fs' := match io
          case CreateFails => fs
          case WriteFails(n) => fs[path := if n < |text| then text[..n] else text]
          case IoOk => fs[path := text];
        Exported(fs', FileExported(path))
  }

  /** The positive button: an empty name only asks for a name; any other
      name exports and dismisses the dialog. */
  function OnClick(fs: FileSystem, name: string, receivedData: seq<string>, fileLocation: string,
                   lineSeparator: string, io: Io): (r: Clicked)
    ensures name == [] <==> r.toast == ProvideFileName
    ensures name == [] ==> r.fs == fs && !r.dismissed
    ensures name != [] ==> r.dismissed
    ensures name != [] ==>
      var e := Export(fs, name, receivedData, fileLocation, lineSeparator, io);
      r.fs == e.fs && r.toast == e.toast
  {
    if name == [] then Clicked(fs, ProvideFileName, false)
    else
      var e := Export(fs, name, receivedData, fileLocation, lineSeparator, io);
      Clicked(e.fs, e.toast, true)
  }

  /** Exporting the same name twice: the second attempt finds the file and
      leaves the first export's contents in place. */
  lemma SecondExportFindsFile(fs: FileSystem, name: string, receivedData: seq<string>, more: seq<string>,
                              fileLocation: string, lineSeparator: string)
    requires |receivedData| > 0 && |more| > 0
    requires Join(fileLocation, name) !in fs
    ensures var first := Export(fs, name, receivedData, fileLocation, lineSeparator, IoOk);
      var second := Export(first.fs, name, more, fileLocation, lineSeparator, IoOk);
      && second == Exported(first.fs, FileToExportExists)
      && second.fs[Join(fileLocation, name)] == ExportText(receivedData, lineSeparator)
  {
  }

  /** End to end: text read by the connect thread into an empty log, once the
      looper has caught up, exports line by line as exactly the framed records. */
  lemma HeldRecordsExportLineByLine(s: BluetoothCommunicator.State, chunks: seq<string>, framing: Framing)
    requires BluetoothCommunicator.Valid(s) && BluetoothCommunicator.Reading(s)
    requires s.thread.value.streams == BluetoothCommunicator.Open
    requires BluetoothCommunicator.Pending(s) == [] && s.receivedData == []
    requires Delimiter !in s.thread.value.pending
    ensures BluetoothCommunicator.ReadAll(s, chunks, framing).Success?
    ensures var held := BluetoothCommunicator.DrainAll(BluetoothCommunicator.ReadAll(s, chunks, framing).value).receivedData;
      && held == Feed(framing, s.thread.value.pending, chunks).records
      && SplitLines(ExportText(held, [Delimiter])) == held + [[]]
  {
    BluetoothCommunicator.RecordsReachHeldData(s, chunks, framing);
    var held := Feed(framing, s.thread.value.pending, chunks).records;
    assert [] + held == held;
    ExportedLinesAreRecords(held);
  }
}
