/** The admin "create a blog" page: the publish handler, the AI-generation
    handler and the thumbnail picker. The Quill editor is represented by the
    `innerHTML` of its root (`None` until the editor is mounted); axios
    answers, `marked.parse` and toasts are values handed in and returned. */
module AddBlog {
  import opened Wrappers
  import opened Text
  import BlogController

  /** A file picked in the browser. */
  datatype LocalFile = LocalFile(name: string)

  /** The JSON object sent as the `blog` part of the form. */
  datatype BlogPayload = BlogPayload(
    title: string,
    subTitle: string,
    description: string,
    category: string,
    isPublished: bool)

  /** The multipart request: the `blog` part and, when a file was picked, the `image` part. */
  datatype FormRequest = FormRequest(blog: BlogPayload, image: Option<LocalFile>)

  /** What axios hands back: the server's `{success, message, content}` or a thrown error. */
  datatype PostReply =
    | Answered(success: bool, message: Option<string>, content: string)
    | Thrown(message: Option<string>)

  datatype Toast = NoToast | SuccessToast(text: string) | ErrorToast(text: string)

  const DefaultCategory: string := "Startup"
  const NoTitleMessage: string := "Please enter a blog title"
  const NoDescriptionMessage: string := "Please write your blog description"
  const PublishedMessage: string := "Blog published"
  const UnableToPublishMessage: string := "Unable to publish"
  const SomethingWrongMessage: string := "Something went wrong"
  const NoPromptMessage: string := "Please enter a title"
  const GenerationFailedMessage: string := "AI generation failed"
  /** The TypeError raised by `quillRef.current.root` while the editor is not mounted. */
  const NullEditorMessage: string := "Cannot read properties of null (reading 'root')"

  /** `message || fallback`. */
  function OrDefault(message: Option<string>, fallback: string): string
  {
    if message.Some? && message.value != "" then message.value else fallback
  }

  /** `quillRef.current?.root?.innerHTML || ""`. */
  function DescriptionOf(editor: Option<string>): string
  {
    if editor.Some? then editor.value else ""
  }

  /** The two checks `handlePublish` makes before sending: the error it shows, if any. */
  function PublishRefusal(title: string, editor: Option<string>): (r: Option<string>)
    ensures r == Some(NoTitleMessage) <==> title == ""
    ensures r == Some(NoDescriptionMessage) <==> title != "" && IsBlank(DescriptionOf(editor))
    ensures r.None? <==> title != "" && !IsBlank(DescriptionOf(editor))
  {
    if title == "" then Some(NoTitleMessage)
    else if IsBlank(DescriptionOf(editor)) then Some(NoDescriptionMessage)
    else None
  }

  /** What the page promises about every request it sends. */
  predicate Sendable(p: BlogPayload)
  {
    p.title != "" && !IsBlank(p.description)
  }

  /** The form the server reads back from `JSON.parse(req.body.blog)`. */
  function ServerForm(p: BlogPayload): BlogController.BlogForm
  {
    BlogController.BlogForm(Some(p.title), Some(p.subTitle), Some(p.description), Some(p.category), p.isPublished)
  }

  /** A request the page sends is refused by the server's required-field guard
      exactly when no category is chosen ("Select category") or no thumbnail
      was attached: the title and description checks are already met. */
  lemma SentRequestMissesFieldIff(p: BlogPayload, file: Option<BlogController.ImageFile>)
    requires Sendable(p)
    ensures BlogController.MissingField(ServerForm(p), file) <==> p.category == "" || file.None?
  {
  }

  class BlogEditor {
    var title: string
    var subTitle: string
    var category: string
    var image: Option<LocalFile>
    var isPublished: bool
    var isAdding: bool
    var loading: bool
    /** The editor root's `innerHTML`; `None` while Quill is not mounted. */
    var editor: Option<string>

    constructor ()
      ensures title == "" && subTitle == "" && category == DefaultCategory && image == None
      ensures !isPublished && !isAdding && !loading && editor == None
    {
      title, subTitle, category, image := "", "", DefaultCategory, None;
      isPublished, isAdding, loading, editor := false, false, false, None;
    }

    /** The mount effect: Quill is created once, when its container exists;
        `initialHtml` is the root's content Quill starts with. */
    method InitEditor(mounted: bool, initialHtml: string)
      modifies this`editor
      ensures editor == if old(editor).None? && mounted then Some(initialHtml) else old(editor)
    {
      if editor.None? && mounted {
        editor := Some(initialHtml);
      }
    }

    /** `handleThumbnailUpload`: an empty selection keeps the current file. */
    method ChooseImage(file: Option<LocalFile>)
      modifies this`image
      ensures image == if file.Some? then file else old(image)
    {
      if file.Some? {
        image := file;
      }
    }

    /** Every form field is as it was. */
    twostate predicate FormKept()
      reads this
    {
      title == old(title) && subTitle == old(subTitle) && category == old(category) &&
      image == old(image) && isPublished == old(isPublished) && editor == old(editor)
    }

    /** The request `handlePublish` would build from the current fields. */
    function Payload(): BlogPayload
      reads this
    {
      BlogPayload(title, subTitle, DescriptionOf(editor), category, isPublished)
    }

    /** `handlePublish`: refuse an empty title or a blank description; otherwise
        post the form, and on success reset the fields. `isAdding` is cleared on
        every path (the `finally`). */
    method HandlePublish(reply: PostReply) returns (sent: Option<FormRequest>, toast: Toast)
      modifies this
      ensures !isAdding && loading == old(loading)
      ensures sent.Some? ==> Sendable(sent.value.blog)
      ensures PublishRefusal(old(title), old(editor)).Some? ==>
        sent.None? && toast == ErrorToast(PublishRefusal(old(title), old(editor)).value) &&
        FormKept()
      ensures PublishRefusal(old(title), old(editor)).None? ==>
        sent == Some(FormRequest(BlogPayload(old(title), old(subTitle), DescriptionOf(old(editor)), old(category), old(isPublished)), old(image)))
      ensures PublishRefusal(old(title), old(editor)).None? && reply.Answered? && reply.success ==>
        toast == SuccessToast(OrDefault(reply.message, PublishedMessage)) &&
        title == "" && subTitle == "" && category == DefaultCategory && image == None &&
        !isPublished && editor == Some("")
      ensures PublishRefusal(old(title), old(editor)).None? && !(reply.Answered? && reply.success) ==>
        toast == ErrorToast(if reply.Answered? then OrDefault(reply.message, UnableToPublishMessage)
                            else OrDefault(reply.message, SomethingWrongMessage)) &&
        FormKept()
    {
      var refusal := PublishRefusal(title, editor);
      if refusal.Some? {
        isAdding := false;
        return None, ErrorToast(refusal.value);
      }
      sent, toast := PostForm(reply);
    }

    /** The part of `handlePublish` after both checks passed; the editor is
        mounted there, since an unmounted one has a blank description. */
    method PostForm(reply: PostReply) returns (sent: Option<FormRequest>, toast: Toast)
      requires editor.Some?
      modifies this
      ensures !isAdding && loading == old(loading)
      ensures sent == Some(FormRequest(BlogPayload(old(title), old(subTitle), DescriptionOf(old(editor)), old(category), old(isPublished)), old(image)))
      ensures reply.Answered? && reply.success ==>
        toast == SuccessToast(OrDefault(reply.message, PublishedMessage)) &&
        title == "" && subTitle == "" && category == DefaultCategory && image == None &&
        !isPublished && editor == Some("")
      ensures !(reply.Answered? && reply.success) ==>
        toast == ErrorToast(if reply.Answered? then OrDefault(reply.message, UnableToPublishMessage)
                            else OrDefault(reply.message, SomethingWrongMessage)) &&
        FormKept()
    {
      isAdding := true;
      var blog := Payload();
      sent := Some(FormRequest(blog, image));
      match reply {
        case Answered(success, message, _) => {
          if success {
            toast := SuccessToast(OrDefault(message, PublishedMessage));
            image := None;
            title := "";
            subTitle := "";
            editor := Some("");
            category := DefaultCategory;
            isPublished := false;
          } else {
            toast := ErrorToast(OrDefault(message, UnableToPublishMessage));
          }
        }
        case Thrown(message) => {
          toast := ErrorToast(OrDefault(message, SomethingWrongMessage));
        }
      }
      isAdding := false;
    }

    /** `generateContent`: with no title nothing is requested; otherwise the
        prompt is the title, a successful answer's markdown replaces the editor
        content through `parse`, and `loading` is cleared at the end. */
    method GenerateContent(reply: PostReply, parse: string -> string) returns (prompt: Option<string>, toast: Toast)
      modifies this`loading, this`editor
      ensures old(title) == "" ==>
        prompt.None? && toast == ErrorToast(NoPromptMessage) &&
        loading == old(loading) && editor == old(editor)
      ensures old(title) != "" ==> prompt == Some(title) && !loading
      ensures old(title) != "" && reply.Answered? && reply.success ==>
        if old(editor).Some? then editor == Some(parse(reply.content)) && toast == NoToast
        else editor == old(editor) && toast == ErrorToast(NullEditorMessage)
      ensures old(title) != "" && !(reply.Answered? && reply.success) ==>
        editor == old(editor) &&
        toast == ErrorToast(if reply.Answered? then OrDefault(reply.message, GenerationFailedMessage)
                            else OrDefault(reply.message, SomethingWrongMessage))
    {
      if title == "" {
        return None, ErrorToast(NoPromptMessage);
      }
      loading := true;
      prompt := Some(title);
      toast := NoToast;
      match reply {
        case Answered(success, message, content) => {
          if success {
            if editor.Some? {
              editor := Some(parse(content));
            } else {
              toast := ErrorToast(NullEditorMessage);
            }
          } else {
            toast := ErrorToast(OrDefault(message, GenerationFailedMessage));
          }
        }
        case Thrown(message) => {
          toast := ErrorToast(OrDefault(message, SomethingWrongMessage));
        }
      }
      loading := false;
    }

    /** The "Generate with AI" button is disabled while a generation runs. */
    predicate GenerateDisabled()
      reads this
    {
      loading
    }

    /** The "Add Blog" button is disabled while a publish runs. */
    predicate PublishDisabled()
      reads this
    {
      isAdding
    }
  }

  /** After a successful publish the form refuses to publish again until a
      new title is typed. */
  method PublishAgainRefused(page: BlogEditor, first: PostReply, second: PostReply)
      returns (firstSent: Option<FormRequest>, sent: Option<FormRequest>, toast: Toast)
    requires first.Answered? && first.success
    modifies page
    ensures sent.None?
    ensures firstSent.Some? ==> toast == ErrorToast(NoTitleMessage)
  {
    var firstToast;
    firstSent, firstToast := page.HandlePublish(first);
    if firstSent.Some? {
      assert page.title == "";
    }
    sent, toast := page.HandlePublish(second);
  }
}
