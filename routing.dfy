/** The routing test of the send handler: is the classifier's answer a "yes"? */
module Routing {
  import opened Text

  /** 'y' compared with OrdinalIgnoreCase: only 'y' and 'Y' upper-case to 'Y'. */
  predicate IsY(c: char) {
    c == 'y' || c == 'Y'
  }

  /** The answer, once trimmed, starts with "y" under an ordinal case-insensitive comparison. */
  predicate IsImageRequest(answer: string) {
    var t := Trim(answer);
    |t| > 0 && IsY(t[0])
  }

  /**
   * An answer routes to image generation if and only if its first character that is not white
   * space is 'y' or 'Y'; any other answer, a blank one included, routes to chat.
   */
  lemma ImageRequestIff(answer: string)
    ensures IsImageRequest(answer) <==>
      exists k :: 0 <= k < |answer| && IsNullOrWhiteSpace(answer[..k]) && IsY(answer[k])
    ensures IsNullOrWhiteSpace(answer) ==> !IsImageRequest(answer)
  {
    TrimSpec(answer);
    var t := Trim(answer);
    var a := LeadingWhiteSpace(answer);
    assert t != [] ==> t[0] == answer[a];
    assert t != [] ==> IsNullOrWhiteSpace(answer[..a]);
    forall k | 0 <= k < |answer| && IsNullOrWhiteSpace(answer[..k]) && IsY(answer[k])
      ensures k == a && t != []
    {
      assert !IsWhiteSpace(answer[k]);
    }
  }

  /** Only the first character that is not white space decides the route. */
  lemma RouteByFirstNonWhite(answer: string, k: nat)
    requires k < |answer| && IsNullOrWhiteSpace(answer[..k]) && !IsWhiteSpace(answer[k])
    ensures IsImageRequest(answer) <==> IsY(answer[k])
  {
    ImageRequestIff(answer);
    forall j | 0 <= j < |answer| && IsNullOrWhiteSpace(answer[..j]) && IsY(answer[j])
      ensures j == k
    {
      assert !IsWhiteSpace(answer[j]);
    }
  }

  /** Answers the classifier may give, and where they route. */
  lemma RoutingExampleYes()
    ensures IsImageRequest("Yes, that sounds like an image.")
  {
  }

  lemma RoutingExampleNo()
    ensures !IsImageRequest("No, that's a question.")
  {
  }

  lemma RoutingExampleIndented()
    ensures IsImageRequest(" \n yes") && !IsImageRequest("\tはい")
  {
  }

  lemma RoutingExampleBlank()
    ensures !IsImageRequest("") && !IsImageRequest(" \t ")
  {
  }
}
