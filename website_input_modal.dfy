/** client/src/components/editor/WebsiteInputModal.tsx: the dialog that asks for a
    website address. An empty address is refused; an address without an http or
    https scheme gets "https://" put in front; the result must then parse as a URL
    before it is handed on for capture. */
module WebsiteInputModal {
  import opened Text

  const EmptyUrlError := "Please enter a URL"
  const InvalidUrlError := "Please enter a valid URL"

  // The `i` flag without the `u` flag folds an ASCII capital to its small letter
  // and nothing else that matters to the pattern: `LowerAscii`.

  /** `s` begins with the lower-case `prefix`, letters compared without case. */
  predicate StartsWithIgnoringCase(s: string, prefix: string) {
    |prefix| <= |s| && forall i :: 0 <= i < |prefix| ==> LowerAscii(s[i]) == prefix[i]
  }

  /** `/^https?:\/\//i.test(url)`. */
  predicate HasHttpScheme(url: string) {
    StartsWithIgnoringCase(url, "http://") || StartsWithIgnoringCase(url, "https://")
  }

  /** The address as it is validated and captured. */
  function ProcessUrl(url: string): (processed: string)
    ensures HasHttpScheme(processed)
    ensures HasHttpScheme(url) <==> processed == url
    ensures |url| <= |processed| && processed[|processed| - |url|..] == url
  {
    if HasHttpScheme(url) then url
    else
      assert StartsWithIgnoringCase("https://" + url, "https://");
      "https://" + url
  }

  /** Processing an address twice is processing it once. */
  lemma ProcessUrlIdempotent(url: string)
    ensures ProcessUrl(ProcessUrl(url)) == ProcessUrl(url)
  {
  }

  /** A prefix is only ever added, never a second one: a processed address that
      differs from the input is exactly "https://" followed by the input. */
  lemma ProcessUrlAddsHttps(url: string)
    ensures ProcessUrl(url) == url || ProcessUrl(url) == "https://" + url
    ensures ProcessUrl(url) != url ==> !HasHttpScheme(url)
  {
  }

  /** The scheme test ignores the case of its letters: an upper-case "HTTP://" counts. */
  lemma SchemeIgnoresCase(rest: string)
    ensures HasHttpScheme("HTTP://" + rest) && HasHttpScheme("HTTPS://" + rest)
  {
    assert StartsWithIgnoringCase("HTTP://" + rest, "http://");
    assert StartsWithIgnoringCase("HTTPS://" + rest, "https://");
  }

  /** An address that does not begin with an "h" of either case gets the prefix. */
  lemma NoSchemeWithoutH(url: string)
    requires url == [] || LowerAscii(url[0]) != 'h'
    ensures !HasHttpScheme(url)
    ensures ProcessUrl(url) == "https://" + url
  {
    if url != [] {
      assert "http://"[0] == 'h' && "https://"[0] == 'h';
    }
  }

  /** The dialog's state and the addresses it handed to `onCapture`. */
  class CaptureDialog {
    var url: string
    var error: string
    var isLoading: bool
    var captured: seq<string>

    /** Everything handed on carries a scheme. */
    ghost predicate Valid()
      reads this
    {
      forall i :: 0 <= i < |captured| ==> HasHttpScheme(captured[i])
    }

    constructor()
      ensures Valid()
      ensures url == "" && error == "" && !isLoading && captured == []
    {
      url := "";
      error := "";
      isLoading := false;
      captured := [];
    }

    /** The input's `onChange`. */
    method SetUrl(value: string)
      requires Valid()
      modifies this
      ensures Valid()
      ensures url == value && error == old(error) && isLoading == old(isLoading) && captured == old(captured)
    {
      url := value;
    }

    /** `handleSubmit`. `isValidUrl` says whether `new URL(...)` accepts the text. */
    method HandleSubmit(isValidUrl: string -> bool)
      requires Valid()
      modifies this
      ensures Valid()
      ensures url == old(url)
      ensures old(url) == "" ==>
        error == EmptyUrlError && isLoading == old(isLoading) && captured == old(captured)
      ensures old(url) != "" && !isValidUrl(ProcessUrl(old(url))) ==>
        error == InvalidUrlError && isLoading == old(isLoading) && captured == old(captured)
      ensures old(url) != "" && isValidUrl(ProcessUrl(old(url))) ==>
        error == "" && isLoading && captured == old(captured) + [ProcessUrl(old(url))]
    {
      if url == "" {
        error := EmptyUrlError;
        return;
      }
      var processedUrl := url;
      if !HasHttpScheme(url) {
        processedUrl := "https://" + url;
      }
      if !isValidUrl(processedUrl) {
        error := InvalidUrlError;
        return;
      }
      isLoading := true;
      error := "";
      captured := captured + [processedUrl];
    }
  }
}
