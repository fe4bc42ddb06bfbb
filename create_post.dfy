/** The form that writes a new post: text, an optional image address behind
    a toggle, and a submit that resets the form only when the insert succeeds. */
module CreatePost {
  import opened Optional
  import opened Text
  import opened Backend

  /** The row `handleSubmit` inserts: none without a signed-in profile or when
      the text is blank once trimmed; otherwise both fields trimmed. */
  function PostRequest(viewer: Option<UserId>, content: string, imageUrl: string, newId: PostId): (r: Option<PostRow>)
    ensures r.Some? <==> viewer.Some? && !IsBlank(content)
    ensures r.Some? ==> r.value.userId == viewer.value
    ensures r.Some? ==> r.value.content != [] && IsTrimmed(r.value.content)
    ensures r.Some? ==> IsTrimmed(r.value.imageUrl)
    ensures r.Some? ==> r.value.content == Trim(content) && r.value.imageUrl == Trim(imageUrl)
  {
    if viewer.None? || IsBlank(content) then None
    else
      Some(PostRow(newId, viewer.value, Trim(content), Trim(imageUrl)))
  }

  /** The form's state. */
  class PostForm {
    var content: string
    var imageUrl: string
    var showImageInput: bool
    var loading: bool

    constructor ()
      ensures content == [] && imageUrl == [] && !showImageInput && !loading
    {
      content, imageUrl := [], [];
      showImageInput, loading := false, false;
    }

    /** The post button is disabled while a submit is running or the text is
        blank. */
    function SubmitDisabled(): (r: bool)
      reads this
      ensures r <==> loading || AllWhitespace(content)
    {
      BlankIffAllWhitespace(content);
      loading || IsBlank(content)
    }

    /** The image button shows or hides the address field. */
    method ToggleImageInput()
      modifies this`showImageInput
      ensures showImageInput == !old(showImageInput)
    {
      showImageInput := !showImageInput;
    }

    /** `handleSubmit`: sends `PostRequest`; only when the backend applies it
        are the text and the address cleared and the address field hidden.
        On an error every field keeps its value; `loading` is false afterwards
        on every path that sent a request. */
    method HandleSubmit(viewer: Option<UserId>, store: Store, newId: PostId, reply: Reply)
      returns (sent: Option<PostRow>)
      modifies this`content, this`imageUrl, this`showImageInput, this`loading, store`posts
      ensures sent == PostRequest(viewer, old(content), old(imageUrl), newId)
      ensures store.posts == if sent.Some? && reply == Applied then old(store.posts) + [sent.value]
                             else old(store.posts)
      ensures content == if sent.Some? && reply == Applied then [] else old(content)
      ensures imageUrl == if sent.Some? && reply == Applied then [] else old(imageUrl)
      ensures showImageInput == if sent.Some? && reply == Applied then false else old(showImageInput)
      ensures loading == if sent.Some? then false else old(loading)
    {
      sent := PostRequest(viewer, content, imageUrl, newId);
      if sent.None? {
        return;
      }
      loading := true;
      store.InsertPost(sent.value, reply);
      if reply == Applied {
        content := [];
        imageUrl := [];
        showImageInput := false;
      }
      loading := false;
    }
  }
}
