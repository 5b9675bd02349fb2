/** `getBase64Image` of `src/lib/converter.ts`: the image type and base64
    payload of a data URL, as ExcelJS's `addImage` wants them. */
module DataUrl {
  import opened Text

  datatype Extension = Png | Jpeg

  datatype Base64Image = Base64Image(extension: Extension, data: string)

  const JpegPrefix: string := "data:image/jpeg"

  /** The type is JPEG exactly when the URL starts with `data:image/jpeg`,
      otherwise PNG; the payload is everything after the first comma, or the
      whole string when there is no comma (`indexOf` gives -1). */
  function GetBase64Image(imgSrc: string): (r: Base64Image)
    ensures r.extension == Jpeg <==> StartsWith(imgSrc, JpegPrefix)
    ensures ',' !in imgSrc ==> r.data == imgSrc
    ensures ',' in imgSrc ==> exists i :: 0 <= i < |imgSrc| && imgSrc[i] == ',' && ',' !in imgSrc[..i] && r.data == imgSrc[i + 1..]
  {
    var extension := if StartsWith(imgSrc, JpegPrefix) then Jpeg else Png;
    Base64Image(extension, imgSrc[IndexOf(imgSrc, ',') + 1..])
  }

  function ExtensionName(e: Extension): string {
    match e
    case Png => "png"
    case Jpeg => "jpeg"
  }

  /** The header of a base64 data URL of the given type. */
  function Head(e: Extension): string {
    "data:image/" + ExtensionName(e) + ";base64,"
  }

  /** The data URL a canvas or a document gives for an image. */
  function ToDataUrl(e: Extension, payload: string): string {
    Head(e) + payload
  }

  /** The header's only comma is its last character, and only the JPEG
      header starts with `data:image/jpeg`. */
  lemma HeadFacts(e: Extension)
    ensures |JpegPrefix| <= |Head(e)|
    ensures IndexOf(Head(e), ',') == |Head(e)| - 1
    ensures StartsWith(Head(e), JpegPrefix) <==> e == Jpeg
  {
    var h := Head(e);
    IndexOfAt(h, ',', |h| - 1);
    if e == Png {
      assert h[11] == 'p' && JpegPrefix[11] == 'j';
      assert h[..|JpegPrefix|][11] != JpegPrefix[11];
    }
  }

  /** Text appended after a string does not change whether it starts with a
      prefix no longer than itself. */
  lemma StartsWithAppend(s: string, t: string, prefix: string)
    requires |prefix| <= |s|
    ensures StartsWith(s + t, prefix) <==> StartsWith(s, prefix)
  {
    assert (s + t)[..|prefix|] == s[..|prefix|];
  }

  /** Text appended after a string does not move the first occurrence of a
      character the string already holds. */
  lemma IndexOfAppend(s: string, t: string, c: char)
    requires c in s
    ensures IndexOf(s + t, c) == IndexOf(s, c)
  {
    var i := IndexOf(s, c);
    assert (s + t)[..i] == s[..i];
    IndexOfAt(s + t, c, i);
  }

  /** Splitting a data URL gives back the type and the payload it was built
      from, whatever the payload holds (commas included). */
  lemma RoundTrip(e: Extension, payload: string)
    ensures GetBase64Image(ToDataUrl(e, payload)) == Base64Image(e, payload)
  {
    var h := Head(e);
    HeadFacts(e);
    StartsWithAppend(h, payload, JpegPrefix);
    assert h[|h| - 1] == ',';
    IndexOfAppend(h, payload, ',');
    assert (h + payload)[|h|..] == payload;
  }

  /** `indexOf` finds the first occurrence. */
  lemma IndexOfAt(s: string, c: char, i: nat)
    requires i < |s| && s[i] == c && c !in s[..i]
    ensures IndexOf(s, c) == i
  {
  }
}
