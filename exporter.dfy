/** The export run of the image editor: for each entry of the density table,
    in order, one copy of the selected image scaled by the entry's factor and
    named after the entry, handed to the download sink. Also the small piece
    of component state that decides which file an export run uses. */
module Exporter {
  import opened Densities
  import opened FileNames

  datatype Option<T> = None | Some(value: T)

  /** A file picked by the user: its name and its MIME type. */
  datatype File = File(name: string, mimeType: string)

  /** The decoded image: only its size matters to the export. */
  datatype Image = Image(width: nat, height: nat)

  /** One download: the file name, the size of the scaled canvas, and the
      MIME type requested of the canvas encoder (the selected file's own).
      The pixels themselves are not modelled. */
  datatype ExportResult = ExportResult(fileName: string, width: nat, height: nat, requestedType: string)

  const ImageTypePrefix: string := "image/"
  const InvalidFileMessage: string := "Please select a valid image file."
  const DoneMessage: string := "Image processing complete. Check your downloads."

  /** The gate of handleFile: a file is there and its type starts with
      "image/", that is, its first six characters are "image/". */
  predicate IsImageFile(file: Option<File>): (ok: bool)
    ensures ok <==> file.Some? && |file.value.mimeType| >= |ImageTypePrefix|
                    && file.value.mimeType[..|ImageTypePrefix|] == ImageTypePrefix
  {
    file.Some? && ImageTypePrefix <= file.value.mimeType
  }

  /** The copy made for one density: a canvas of Math.round of the source
      size times the density's factor, encoded as the source's type, under a
      name one character longer than the source's name and the density's
      together when the source's name has a dot. */
  function ExportEntry(file: File, img: Image, d: Density): (r: ExportResult)
    ensures IsMathRound(r.width, img.width as real * Factor(d))
    ensures IsMathRound(r.height, img.height as real * Factor(d))
    ensures r.requestedType == file.mimeType
    ensures Dot in file.name ==> |r.fileName| == |file.name| + |d.name| + 1
  {
    ExportResult(OutputName(file.name, d.name), Scale(img.width, d), Scale(img.height, d), file.mimeType)
  }

  /** Everything one export run downloads, in table order. */
  function Exports(file: File, img: Image): (r: seq<ExportResult>)
    ensures |r| == |Table|
  {
    seq(|Table|, i requires 0 <= i < |Table| => ExportEntry(file, img, Table[i]))
  }

  /** The loop of processImage: walks the table in order and emits one copy
      per entry, appending it to the sequence of downloads. */
  method ExportAll(file: File, img: Image) returns (emitted: seq<ExportResult>)
    ensures emitted == Exports(file, img)
  {
    emitted := [];
    for i := 0 to |Table|
      invariant emitted == Exports(file, img)[..i]
    {
      var d := Table[i];
      var scaledWidth := Scale(img.width, d);
      var scaledHeight := Scale(img.height, d);
      emitted := emitted + [ExportResult(OutputName(file.name, d.name), scaledWidth, scaledHeight, file.mimeType)];
    }
  }

  /** The i-th download carries the i-th density's name, its scaled size and
      the type requested of the encoder is the source's MIME type. */
  lemma ExportsFollowTable(file: File, img: Image, i: nat)
    requires i < |Table|
    ensures Exports(file, img)[i].fileName == BaseName(file.name) + "_" + Table[i].name + "." + Extension(file.name)
    ensures IsMathRound(Exports(file, img)[i].width, img.width as real * Factor(Table[i]))
    ensures IsMathRound(Exports(file, img)[i].height, img.height as real * Factor(Table[i]))
    ensures Exports(file, img)[i].requestedType == file.mimeType
  {
  }

  /** The mdpi download, which comes first, has the size of the source. */
  lemma ExportsStartAtSourceSize(file: File, img: Image)
    ensures Exports(file, img)[0].width == img.width
    ensures Exports(file, img)[0].height == img.height
  {
    ScaleMdpiIdentity(img.width);
    ScaleMdpiIdentity(img.height);
  }

  /** Along the table order the downloads never shrink. */
  lemma ExportsNonDecreasing(file: File, img: Image, i: nat, j: nat)
    requires i <= j < |Table|
    ensures Exports(file, img)[i].width <= Exports(file, img)[j].width
    ensures Exports(file, img)[i].height <= Exports(file, img)[j].height
  {
    if i < j {
      TableOrdered(i, j);
      ScaleMonotone(img.width, Table[i], Table[j]);
      ScaleMonotone(img.height, Table[i], Table[j]);
    }
  }

  /** Output names for two different densities differ: no download of a run
      shares its name with another. */
  lemma OutputNamesDiffer(fileName: string, d: string, e: string)
    requires d != e
    ensures OutputName(fileName, d) != OutputName(fileName, e)
  {
    var prefix := BaseName(fileName) + "_";
    var suffix := [Dot] + Extension(fileName);
    var x, y := OutputName(fileName, d), OutputName(fileName, e);
    assert x == prefix + d + suffix && y == prefix + e + suffix;
    if |d| == |e| {
      assert x[|prefix|..|prefix| + |d|] == d;
      assert y[|prefix|..|prefix| + |e|] == e;
    }
  }

  /** The downloads of one run have pairwise different names. */
  lemma ExportNamesDistinct(file: File, img: Image, i: nat, j: nat)
    requires i < j < |Table|
    ensures Exports(file, img)[i].fileName != Exports(file, img)[j].fileName
  {
    TableOrdered(i, j);
    OutputNamesDiffer(file.name, Table[i].name, Table[j].name);
  }

  /** "photo.png" gives "photo_mdpi.png" up to "photo_xxxhdpi.png". */
  lemma PhotoOutputNames(i: nat)
    requires i < |Table|
    ensures OutputName("photo.png", Table[i].name) == "photo_" + Table[i].name + ".png"
  {
    var stem, ext, d := "photo", "png", Table[i].name;
    assert Dot !in ext;
    OutputNameWithDot(stem, ext, d);
    assert stem + [Dot] + ext == "photo.png";
    assert stem + "_" + d + [Dot] + ext == "photo_" + d + ".png";
  }

  /** A 100 by 100 "photo.png" gives "photo_mdpi.png" at 100 by 100, then
      "photo_hdpi.png" at 150 by 150, up to "photo_xxxhdpi.png" at 400 by
      400. */
  lemma ExportsPhotoExample(i: nat)
    requires i < |Table|
    ensures Exports(File("photo.png", "image/png"), Image(100, 100))[i]
      == ExportResult("photo_" + Table[i].name + ".png", 50 * Table[i].halves, 50 * Table[i].halves, "image/png")
  {
    var file, img := File("photo.png", "image/png"), Image(100, 100);
    assert Exports(file, img)[i] == ExportEntry(file, img, Table[i]);
    PhotoOutputNames(i);
    assert Scale(100, Table[i]) == 50 * Table[i].halves;
  }

  /** The gate of handleFile on a few types: it is case-sensitive and needs
      the slash. */
  lemma ImageTypeExamples()
    ensures IsImageFile(Some(File("a.png", "image/png")))
    ensures !IsImageFile(Some(File("a.txt", "text/plain")))
    ensures !IsImageFile(Some(File("a", "image")))
    ensures !IsImageFile(Some(File("a.png", "Image/png")))
    ensures !IsImageFile(None)
  {
    assert "image/png"[..6] == ImageTypePrefix;
    assert "text/plain"[0] != ImageTypePrefix[0];
    assert "Image/png"[0] != ImageTypePrefix[0];
  }

  /** The state of the editor component that the export depends on. */
  class App {
    var selectedFile: Option<File>
    var previewUrl: Option<string>
    var outputMessage: string
    var isLoading: bool
    /** Every copy handed to the download sink so far, oldest first. */
    var downloads: seq<ExportResult>

    /** A selected file always passed the type gate, and there is a preview
        exactly when there is a selected file. */
    ghost predicate Valid()
      reads this
    {
      (selectedFile.Some? ==> IsImageFile(selectedFile))
      && (previewUrl.Some? <==> selectedFile.Some?)
    }

    constructor ()
      ensures Valid()
      ensures selectedFile == None && previewUrl == None
      ensures outputMessage == "" && !isLoading && downloads == []
    {
      selectedFile := None;
      previewUrl := None;
      outputMessage := "";
      isLoading := false;
      downloads := [];
    }

    /** handleFile: an image file becomes the selected file, with objectUrl
        (what URL.createObjectURL returns for it) as its preview; anything
        else only sets the error message. */
    method HandleFile(file: Option<File>, objectUrl: string)
      requires Valid()
      modifies this
      ensures Valid()
      ensures IsImageFile(file) ==>
        selectedFile == file && previewUrl == Some(objectUrl) && outputMessage == ""
      ensures !IsImageFile(file) ==>
        selectedFile == old(selectedFile) && previewUrl == old(previewUrl)
        && outputMessage == InvalidFileMessage
      ensures isLoading == old(isLoading) && downloads == old(downloads)
    {
      if file.Some? && ImageTypePrefix <= file.value.mimeType {
        selectedFile := file;
        previewUrl := Some(objectUrl);
        outputMessage := "";
      } else {
        outputMessage := InvalidFileMessage;
      }
    }

    /** processImage: with no file selected nothing happens. Otherwise
        loaded is what loadImage gave for the selected file; when it failed
        (None) the run stops with the loading flag still set and nothing
        downloaded, else every copy of the export is downloaded in table
        order and the completion message is shown. */
    method ProcessImage(loaded: Option<Image>)
      requires Valid()
      modifies this
      ensures Valid()
      ensures selectedFile == old(selectedFile) && previewUrl == old(previewUrl)
      ensures old(selectedFile).None? ==>
        outputMessage == old(outputMessage) && isLoading == old(isLoading)
        && downloads == old(downloads)
      ensures old(selectedFile).Some? && loaded.None? ==>
        outputMessage == "" && isLoading && downloads == old(downloads)
      ensures old(selectedFile).Some? && loaded.Some? ==>
        outputMessage == DoneMessage && !isLoading
        && downloads == old(downloads) + Exports(old(selectedFile).value, loaded.value)
    {
      if selectedFile.None? {
        return;
      }
      isLoading := true;
      outputMessage := "";
      if loaded.None? {
        return;
      }
      var emitted := ExportAll(selectedFile.value, loaded.value);
      downloads := downloads + emitted;
      isLoading := false;
      outputMessage := DoneMessage;
    }

    /** clearImage: forgets the selected file, its preview and the message. */
    method ClearImage()
      requires Valid()
      modifies this
      ensures Valid()
      ensures selectedFile == None && previewUrl == None && outputMessage == ""
      ensures isLoading == old(isLoading) && downloads == old(downloads)
    {
      selectedFile := None;
      previewUrl := None;
      outputMessage := "";
    }
  }
}
