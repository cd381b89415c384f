/** File selection of the song page (src/GLEEEEE/SongPage.tsx): which listed files are audio and which is the lyrics sheet. */
module SongPage {
  import opened Strings
  import opened Wrappers

  /** `isValidAudio`: the name ends with ".mp3", ".m4a" or ".wav". */
  predicate IsValidAudio(filename: string)
  {
    EndsWith(filename, ".mp3") || EndsWith(filename, ".m4a") || EndsWith(filename, ".wav")
  }

  predicate IsPdf(filename: string)
  {
    EndsWith(filename, ".pdf")
  }

  /** `files.find(file => file.endsWith(".pdf"))`. */
  function FirstPdf(files: seq<string>): (r: Option<string>)
    ensures r.None? <==> forall i :: 0 <= i < |files| ==> !IsPdf(files[i])
    ensures r.Some? ==> exists k :: 0 <= k < |files| && files[k] == r.value && IsPdf(r.value)
                                    && forall i :: 0 <= i < k ==> !IsPdf(files[i])
  {
    if files == [] then None
    else if IsPdf(files[0]) then Some(files[0])
    else
      var r := FirstPdf(files[1..]);
      assert r.Some? ==> exists k :: 0 <= k < |files| && files[k] == r.value && IsPdf(r.value)
                                    && forall i :: 0 <= i < k ==> !IsPdf(files[i]) by {
        if r.Some? {
          var k :| 0 <= k < |files[1..]| && files[1..][k] == r.value && IsPdf(r.value)
                   && forall i :: 0 <= i < k ==> !IsPdf(files[1..][i]);
          assert files[k + 1] == r.value;
          assert forall i :: 0 <= i < k + 1 ==> !IsPdf(files[i]) by {
            forall i | 0 <= i < k + 1 ensures !IsPdf(files[i]) {
              if i > 0 { assert files[i] == files[1..][i - 1]; }
            }
          }
        }
      }
      r
  }

  /** `files.filter(isValidAudio)`. */
  function AudioFiles(files: seq<string>): seq<string>
  {
    if files == [] then []
    else (if IsValidAudio(files[0]) then [files[0]] else []) + AudioFiles(files[1..])
  }

  /** The audio list holds exactly the listed files that are valid audio. */
  lemma {:induction false} AudioFilesMembers(files: seq<string>)
    ensures |AudioFiles(files)| <= |files|
    ensures forall f :: f in AudioFiles(files) <==> f in files && IsValidAudio(f)
  {
    if files != [] {
      AudioFilesMembers(files[1..]);
      assert files == [files[0]] + files[1..];
    }
  }

  /** The audio list keeps listing order: the audio files of a concatenation are concatenated. */
  lemma {:induction false} AudioFilesConcat(a: seq<string>, b: seq<string>)
    ensures AudioFiles(a + b) == AudioFiles(a) + AudioFiles(b)
  {
    if a == [] {
      assert a + b == b;
    } else {
      AudioFilesConcat(a[1..], b);
      assert (a + b)[0] == a[0];
      assert (a + b)[1..] == a[1..] + b;
    }
  }

  /** A ".pdf" name never ends in an audio extension, so the lyrics file is never also an audio file. */
  lemma PdfIsNotAudio(f: string)
    requires IsPdf(f)
    ensures !IsValidAudio(f)
  {
    var tail := f[|f| - 4..];
    assert tail == ".pdf";
    assert tail[1] == 'p';
  }

  /** What `getLyrics` renders. */
  datatype LyricsView = CannotFindLyrics | PdfEmbed(src: string)

  class SongPage {
    /** `/gleemusic/<songname>/`. */
    const rootFolder: string
    var audioFiles: seq<string>
    var lyricsFile: Option<string>

    /** The constructor; the folder listing it requests arrives later through `FetchFiles`. */
    constructor(songname: string)
      ensures rootFolder == "/gleemusic/" + songname + "/"
      ensures audioFiles == [] && lyricsFile == None
    {
      rootFolder := "/gleemusic/" + songname + "/";
      audioFiles := [];
      lyricsFile := None;
    }

    /** The continuation of `fetchFiles` once the listing `files` has arrived. */
    method FetchFiles(files: seq<string>)
      modifies this
      ensures lyricsFile == FirstPdf(files)
      ensures audioFiles == AudioFiles(files)
      ensures lyricsFile.Some? ==> lyricsFile.value !in audioFiles
    {
      lyricsFile := FirstPdf(files);
      audioFiles := AudioFiles(files);
      AudioFilesMembers(files);
      if lyricsFile.Some? {
        PdfIsNotAudio(lyricsFile.value);
      }
    }

    /** The `src` of each rendered `<audio>` element, in list order. */
    function AudioSources(): (srcs: seq<string>)
      reads this
      ensures |srcs| == |audioFiles|
      ensures forall i :: 0 <= i < |srcs| ==> srcs[i] == rootFolder + audioFiles[i]
    {
      seq(|audioFiles|, i requires 0 <= i < |audioFiles| reads this => rootFolder + audioFiles[i])
    }

    /** `getLyrics`: the placeholder exactly when no lyrics file was found, otherwise the PDF under the song folder. */
    function GetLyrics(): (v: LyricsView)
      reads this
      ensures v.CannotFindLyrics? <==> lyricsFile.None?
      ensures v.PdfEmbed? ==> v.src == rootFolder + lyricsFile.value
    {
      match lyricsFile
      case None => CannotFindLyrics
      case Some(f) => PdfEmbed(rootFolder + f)
    }
  }
}
