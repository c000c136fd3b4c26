/** The post composer (src/components/feed/CreatePost.tsx): attaching a link
    with its preview, and submitting the draft to the page that hosts the
    composer. */
module CreatePost {
  import opened Records
  import Text

  /** What the preview lookup returned: an error (or a failed request), or
      the three fields it found, each '' when absent. */
  datatype Lookup = LookupFailed | Found(title: string, description: string, image: string)

  /** The record kept when the lookup fails: the url doubles as the title. */
  function FallbackPreview(url: string): (p: LinkPreview)
    ensures p.title == url && p.url == url && p.description == "" && p.image == ""
  {
    LinkPreview(url, "", "", url)
  }

  /** The preview `fetchLinkPreview` settles on for `url`. */
  function PreviewOf(lookup: Lookup, url: string): (p: LinkPreview)
    ensures p.url == url
    ensures lookup.LookupFailed? ==> p == FallbackPreview(url)
    ensures lookup.Found? ==>
      p.title == lookup.title && p.description == lookup.description && p.image == lookup.image
  {
    match lookup
    case LookupFailed => FallbackPreview(url)
    case Found(t, d, i) => LinkPreview(t, d, i, url)
  }

  /** What submitting the link input attaches: nothing for blank input,
      otherwise the link with a scheme and its preview. */
  function Attachment(input: string, lookup: Lookup): (r: Option<(string, LinkPreview)>)
    ensures r.None? <==> Text.IsBlank(input)
    ensures r.Some? ==> r.value.0 == Text.WithScheme(input)
                        && r.value.1 == PreviewOf(lookup, Text.WithScheme(input))
  {
    if Text.IsBlank(input) then None
    else Some((Text.WithScheme(input), PreviewOf(lookup, Text.WithScheme(input))))
  }

  /** What `onPost` receives. */
  datatype Submission = Submission(content: string, image: Option<string>, video: Option<string>,
                                   link: Option<string>, linkPreview: Option<LinkPreview>)

  /** The Post button's enabled test: some non-blank text, no upload and no
      preview lookup in flight. */
  predicate PostEnabled(content: string, isUploading: bool, isLoadingPreview: bool) {
    Text.Trim(content) != "" && !isUploading && !isLoadingPreview
  }

  /** An enabled button means the draft has a non-whitespace character, so
      the click always reaches `onPost`. */
  lemma EnabledMeansNotBlank(content: string, isUploading: bool, isLoadingPreview: bool)
    requires PostEnabled(content, isUploading, isLoadingPreview)
    ensures exists i :: 0 <= i < |content| && !Text.IsSpace(content[i])
  {
    Text.TrimEmptyIffBlank(content);
  }

  /** The composer's component state. */
  class Composer {
    var content: string
    var image: Option<string>
    var video: Option<string>
    var link: Option<string>
    var linkPreview: Option<LinkPreview>
    var showLinkInput: bool
    var linkInput: string
    var isUploading: bool
    var isLoadingPreview: bool

    constructor ()
      ensures content == "" && image == None && video == None && link == None && linkPreview == None
      ensures !showLinkInput && linkInput == "" && !isUploading && !isLoadingPreview
    {
      content := "";
      image := None;
      video := None;
      link := None;
      linkPreview := None;
      showLinkInput := false;
      linkInput := "";
      isUploading := false;
      isLoadingPreview := false;
    }

    /** The link button: the input opens only while no preview is attached. */
    method OpenLinkInput()
      modifies this`showLinkInput
      ensures showLinkInput == (old(showLinkInput) || linkPreview.None?)
    {
      if linkPreview.None? {
        showLinkInput := true;
      }
    }

    /** `handleLinkSubmit`, with the lookup's outcome as a parameter: blank
        input is ignored. Otherwise the link is the input with `https://` put
        in front unless it already starts with http:// or https:// in any
        case, the preview is the lookup's (or the fallback record), and the
        input is cleared and closed. */
    method LinkSubmit(lookup: Lookup)
      modifies this`link, this`linkPreview, this`linkInput, this`showLinkInput, this`isLoadingPreview
      ensures var a := Attachment(old(linkInput), lookup);
        if a.None? then
          link == old(link) && linkPreview == old(linkPreview) && linkInput == old(linkInput)
          && showLinkInput == old(showLinkInput) && isLoadingPreview == old(isLoadingPreview)
        else
          link == Some(a.value.0) && linkPreview == Some(a.value.1)
          && linkInput == "" && !showLinkInput && !isLoadingPreview
    {
      var a := Attachment(linkInput, lookup);
      if a.Some? {
        link := Some(a.value.0);
        isLoadingPreview := true;
        linkPreview := Some(a.value.1);
        isLoadingPreview := false;
        linkInput := "";
        showLinkInput := false;
      }
    }

    /** An image upload: choosing a file starts the upload, and the file's
        data URL (a parameter here) becomes the image once it is read. */
    method UploadImage(dataUrl: string)
      modifies this`image, this`isUploading
      ensures image == Some(dataUrl) && !isUploading
    {
      isUploading := true;
      image := Some(dataUrl);
      isUploading := false;
    }

    /** A video upload, as for an image. */
    method UploadVideo(dataUrl: string)
      modifies this`video, this`isUploading
      ensures video == Some(dataUrl) && !isUploading
    {
      isUploading := true;
      video := Some(dataUrl);
      isUploading := false;
    }

    /** `removeImage` */
    method RemoveImage()
      modifies this`image
      ensures image == None
    {
      image := None;
    }

    /** `removeVideo` */
    method RemoveVideo()
      modifies this`video
      ensures video == None
    {
      video := None;
    }

    /** `removeLink`: the link and its preview go together. */
    method RemoveLink()
      modifies this`link, this`linkPreview
      ensures link == None && linkPreview == None
    {
      link := None;
      linkPreview := None;
    }

    /** `handleSubmit`: a blank draft does nothing. Otherwise `onPost` gets
        the draft as typed (not trimmed) with its attachments, and the text,
        the image, the video, the link and the preview are reset. */
    method Submit() returns (posted: Option<Submission>)
      modifies this`content, this`image, this`video, this`link, this`linkPreview
      ensures Text.IsBlank(old(content)) ==>
        posted == None && content == old(content) && image == old(image) && video == old(video)
        && link == old(link) && linkPreview == old(linkPreview)
      ensures !Text.IsBlank(old(content)) ==>
        posted == Some(Submission(old(content), old(image), old(video), old(link), old(linkPreview)))
        && content == "" && image == None && video == None && link == None && linkPreview == None
    {
      if Text.IsBlank(content) {
        return None;
      }
      posted := Some(Submission(content, image, video, link, linkPreview));
      content := "";
      image := None;
      video := None;
      link := None;
      linkPreview := None;
    }
  }
}
