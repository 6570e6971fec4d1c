/** The blog editor pages (client/src/pages/Blog/AddBlog.jsx and
    EditBlog.jsx): the tag list, the slug that follows the title, the form
    loaded from a stored blog, the image choice and what a submit sends.
    Every handler computes a new value from the old one, so the pages are
    modelled as functions on the editor's state. `slugify` and the
    `entities` decoder are parameters; a chosen file is an opaque name. */
module BlogEditor {
  import opened Wrappers
  import opened Text
  import opened Seqs
  import opened Db
  import opened BlogController

  /** The toast `onSubmit` shows in AddBlog when no image was chosen. */
  const NoImageToast := "Featured image is required"

  // ---------------------------------------------------------------------
  // Tags

  /** The tag list and the text of the tag input box. */
  datatype TagEditor = TagEditor(tags: seq<string>, input: string)

  /** The list the editor keeps: every tag in normal form, none twice. */
  predicate TagListOk(tags: seq<string>) {
    NoDuplicates(tags) && forall i :: 0 <= i < |tags| ==> IsNormalTag(tags[i])
  }

  /** `tagInput.trim().toLowerCase()`: the same normal form the blog schema
      gives stored tags, empty exactly when the input is blank. */
  function Candidate(input: string): (t: string)
    ensures t == Normalize(input) && IsNormalTag(t)
    ensures t == "" <==> AllSpace(input)
  {
    LowerTrimCommute(input);
    NormalizeIdempotent(input);
    TrimBlank(input);
    ToLower(Trim(input))
  }

  /** `handleAddTag`: append the candidate when the input is not blank and
      the candidate is not listed yet, and then clear the input; otherwise
      leave list and input as they were. */
  function AddTag(e: TagEditor): (r: TagEditor)
    ensures r.tags != e.tags <==> !AllSpace(e.input) && Candidate(e.input) !in e.tags
    ensures r.tags != e.tags ==> r.tags == e.tags + [Candidate(e.input)] && r.input == ""
    ensures r.tags == e.tags ==> r == e
    ensures !AllSpace(e.input) ==> Candidate(e.input) in r.tags
  {
    var t := Candidate(e.input);
    if Trim(e.input) != "" && t !in e.tags then
      assert |e.tags + [t]| != |e.tags|;
      TagEditor(e.tags + [t], "")
    else
      e
  }

  /** `handleRemoveTag`: keep every tag that differs from the one clicked. */
  function RemoveTag(tags: seq<string>, tag: string): (r: seq<string>)
    ensures tag !in r
    ensures forall t :: t != tag ==> (t in r <==> t in tags)
  {
    WithoutMembers(tags, tag);
    Without(tags, tag)
  }

  /** Adding keeps the list normalised and free of duplicates. */
  lemma AddTagKeepsTagList(e: TagEditor)
    requires TagListOk(e.tags)
    ensures TagListOk(AddTag(e).tags)
  {
    var t := Candidate(e.input);
    if !AllSpace(e.input) && t !in e.tags {
      AppendFresh(e.tags, t);
      AppendNormal(e.tags, t);
      var r := e.tags + [t];
      assert AddTag(e).tags == r;
      assert NoDuplicates(r);
    }
  }

  lemma AppendFresh(tags: seq<string>, t: string)
    requires NoDuplicates(tags) && t !in tags
    ensures NoDuplicates(tags + [t])
  {
    forall i, j | 0 <= i < j < |tags + [t]|
      ensures (tags + [t])[i] != (tags + [t])[j]
    {
      assert (tags + [t])[i] == tags[i];
      if j == |tags| {
        assert tags[i] in tags;
      } else {
        assert (tags + [t])[j] == tags[j];
      }
    }
  }

  lemma AppendNormal(tags: seq<string>, t: string)
    requires forall i :: 0 <= i < |tags| ==> IsNormalTag(tags[i])
    requires IsNormalTag(t)
    ensures forall i :: 0 <= i < |tags + [t]| ==> IsNormalTag((tags + [t])[i])
  {
    forall i | 0 <= i < |tags + [t]|
      ensures IsNormalTag((tags + [t])[i])
    {
      if i < |tags| {
        assert (tags + [t])[i] == tags[i];
      }
    }
  }

  /** A second press of the add button changes nothing: the first either
      cleared the input or left everything as it was. */
  lemma AddTagIdempotent(e: TagEditor)
    ensures AddTag(AddTag(e)) == AddTag(e)
  {
    var r := AddTag(e);
    if r.tags != e.tags {
      assert AllSpace(r.input);
    }
  }

  /** Removing drops the clicked tag and keeps the others in their order. */
  lemma RemoveTagKeepsOthers(a: seq<string>, tag: string, b: seq<string>)
    requires tag !in a && tag !in b
    ensures RemoveTag(a + [tag] + b, tag) == a + b
  {
    WithoutSplit(a, tag, b);
  }

  /** Removing keeps the list normalised and free of duplicates. */
  lemma RemoveTagKeepsTagList(tags: seq<string>, tag: string)
    requires TagListOk(tags)
    ensures TagListOk(RemoveTag(tags, tag))
  {
    WithoutKeepsNoDuplicates(tags, tag);
    var r := RemoveTag(tags, tag);
    forall i | 0 <= i < |r|
      ensures IsNormalTag(r[i])
    {
      assert r[i] in r;
      var j :| 0 <= j < |tags| && tags[j] == r[i];
    }
  }

  /** Removing a tag right after adding it restores the list. */
  lemma AddThenRemove(e: TagEditor)
    requires Candidate(e.input) !in e.tags
    ensures RemoveTag(AddTag(e).tags, Candidate(e.input)) == e.tags
  {
    var t := Candidate(e.input);
    if AddTag(e).tags != e.tags {
      RemoveTagKeepsOthers(e.tags, t, []);
      assert e.tags + [t] + [] == e.tags + [t];
      assert e.tags + [] == e.tags;
    } else {
      WithoutAbsent(e.tags, t);
    }
  }

  // ---------------------------------------------------------------------
  // The slug

  /** AddBlog's effect on a title change: a non-empty title replaces the
      slug by `slugify(title)`. */
  function AddFormSlug(title: string, slug: string, slugify: string -> string): (r: string)
    ensures title != "" ==> r == slugify(title)
    ensures title == "" ==> r == slug
  {
    if title != "" then slugify(title) else slug
  }

  /** EditBlog's effect on a title change: only a non-empty title that
      differs from the loaded blog's title (`None` while the blog has not
      arrived) regenerates the slug. */
  function EditFormSlug(title: string, loadedTitle: Option<string>, slug: string, slugify: string -> string): (r: string)
    ensures r == slug || r == slugify(title)
    ensures r != slug ==> title != "" && loadedTitle != Some(title)
    ensures title != "" && loadedTitle != Some(title) ==> r == slugify(title)
  {
    if title != "" && loadedTitle != Some(title) then slugify(title) else slug
  }

  /** Before a blog is loaded, EditBlog's rule is AddBlog's rule. */
  lemma EditSlugWithoutLoadedBlog(title: string, slug: string, slugify: string -> string)
    ensures EditFormSlug(title, None, slug, slugify) == AddFormSlug(title, slug, slugify)
  {
  }

  // ---------------------------------------------------------------------
  // Loading a stored blog into EditBlog

  /** `blogData.blog.category` as it arrives: an id string on legacy posts, a
      populated category object (with or without `_id`), or nothing. */
  datatype CategoryField = CategoryName(name: string) | CategoryObject(id: Option<string>) | NoCategory

  /** The category id the form starts with. */
  function CategoryId(c: CategoryField): (r: string)
    ensures c.CategoryName? ==> r == c.name
    ensures c.CategoryObject? && c.id.Some? ==> r == c.id.value
    ensures c.NoCategory? || c == CategoryObject(None) ==> r == ""
  {
    match c
    case CategoryName(name) => name
    case CategoryObject(id) => if id.Some? then id.value else ""
    case NoCategory => ""
  }

  /** The form starts without a category exactly when the blog carries no
      category id in either shape. */
  lemma CategoryIdEmpty(c: CategoryField)
    ensures CategoryId(c) == "" <==>
              c.NoCategory? || c == CategoryObject(None) || c == CategoryObject(Some(""))
              || c == CategoryName("")
  {
  }

  /** `blogData.blog` as EditBlog reads it. */
  datatype LoadedBlog = LoadedBlog(
    category: CategoryField,
    title: Option<string>,
    slug: Option<string>,
    blogContent: Option<string>,
    featuredImage: Option<string>,
    tags: Option<seq<string>>)

  /** The four validated form fields. */
  datatype BlogForm = BlogForm(category: string, title: string, slug: string, blogContent: string)

  /** What EditBlog holds once the blog has arrived. */
  datatype EditForm = EditForm(values: BlogForm, preview: string, tags: seq<string>)

  function OrEmpty(s: Option<string>): string {
    if s.Some? then s.value else ""
  }

  /** The effect that runs when the blog arrives: reset the form, set the
      preview, and take the blog's tags when it has any (an empty array
      counts, being truthy) while keeping `tags` otherwise. */
  function LoadForm(blog: LoadedBlog, tags: seq<string>, decode: string -> string): (f: EditForm)
    ensures f.values.category == CategoryId(blog.category)
    ensures f.values.title == OrEmpty(blog.title) && f.values.slug == OrEmpty(blog.slug)
    ensures f.values.blogContent == decode(OrEmpty(blog.blogContent))
    ensures f.preview == OrEmpty(blog.featuredImage)
    ensures blog.tags.Some? ==> f.tags == blog.tags.value
    ensures blog.tags.None? ==> f.tags == tags
  {
    EditForm(
      BlogForm(CategoryId(blog.category), OrEmpty(blog.title), OrEmpty(blog.slug),
               decode(OrEmpty(blog.blogContent))),
      OrEmpty(blog.featuredImage),
      if blog.tags.Some? then blog.tags.value else tags)
  }

  /** Loading fills the title, which fires the slug effect; the stored slug
      survives it, whatever the stored title is. */
  lemma LoadKeepsStoredSlug(blog: LoadedBlog, tags: seq<string>, decode: string -> string, slugify: string -> string)
    ensures var f := LoadForm(blog, tags, decode);
            EditFormSlug(f.values.title, blog.title, f.values.slug, slugify) == OrEmpty(blog.slug)
  {
  }

  // ---------------------------------------------------------------------
  // The image and the submit

  /** A chosen file, known to the model by a name. */
  type FileRef = string

  /** The chosen file and the preview shown. */
  datatype ImageChoice = ImageChoice(file: Option<FileRef>, preview: Option<string>)

  /** The clear button in AddBlog: no file and no preview. */
  function ClearAddImage(): (c: ImageChoice)
    ensures c.file.None? && c.preview.None?
  {
    ImageChoice(None, None)
  }

  /** The clear button in EditBlog: no file, and the preview goes back to
      the stored image. */
  function ClearEditImage(stored: Option<string>): (c: ImageChoice)
    ensures c.file.None? && c.preview == stored
  {
    ImageChoice(None, stored)
  }

  /** The schema `form.handleSubmit` checks before `onSubmit` runs. */
  predicate FormValid(v: BlogForm) {
    |v.category| >= 1 && |v.title| >= 3 && |v.slug| >= 3 && |v.blogContent| >= 10
  }

  /** The `data` field a submit sends: the form values, the author when
      the page adds one, and the tag list. */
  datatype Payload = Payload(values: BlogForm, author: Option<string>, tags: seq<string>)

  /** What pressing submit does: nothing when the schema fails, a toast and
      no request, or a request with the file part (if any) and `data`. */
  datatype Submission = Blocked | Refused(toast: string) | Sent(file: Option<FileRef>, data: Payload)

  /** AddBlog's submit: the author is the signed-in user; without a file no
      request is sent. */
  function AddSubmit(values: BlogForm, author: string, tags: seq<string>, file: Option<FileRef>): (s: Submission)
    ensures s.Blocked? <==> !FormValid(values)
    ensures s.Refused? <==> FormValid(values) && file.None?
    ensures s.Refused? ==> s.toast == NoImageToast
    ensures s.Sent? ==> s.file == file && file.Some? && s.data == Payload(values, Some(author), tags)
  {
    if !FormValid(values) then Blocked
    else if file.None? then Refused(NoImageToast)
    else Sent(file, Payload(values, Some(author), tags))
  }

  /** EditBlog's submit: no author, and the file part only when a file was
      chosen. */
  function EditSubmit(values: BlogForm, tags: seq<string>, file: Option<FileRef>): (s: Submission)
    ensures s.Blocked? <==> !FormValid(values)
    ensures !s.Refused?
    ensures s.Sent? ==> s.file == file && s.data == Payload(values, None, tags)
  {
    if !FormValid(values) then Blocked else Sent(file, Payload(values, None, tags))
  }

  /** The parsed `data` as the server reads it; `updateBlog` never reads
      the author, which EditBlog does not send. */
  function ServerData(p: Payload): (d: BlogData)
    ensures d.title == Some(p.values.title) && d.category == Some(p.values.category)
    ensures d.slug == Some(p.values.slug) && d.tags == Some(p.tags)
    ensures d.blogContent == p.values.blogContent
  {
    BlogData(OrEmpty(p.author), Some(p.values.category), Some(p.values.title), Some(p.values.slug),
             p.values.blogContent, Some(p.tags))
  }

  /** After the image is cleared in AddBlog, submitting sends nothing. */
  lemma ClearedAddImageIsRefused(values: BlogForm, author: string, tags: seq<string>)
    requires FormValid(values)
    ensures AddSubmit(values, author, tags, ClearAddImage().file) == Refused(NoImageToast)
  {
  }

  /** A request AddBlog sends passes every check `addBlog` makes before
      saving, and a well-kept tag list is stored exactly as edited. */
  lemma SentBlogPassesServerChecks(values: BlogForm, author: string, tags: seq<string>, file: Option<FileRef>,
                                   id: string, image: string, suffix: nat, encode: string -> string)
    requires AddSubmit(values, author, tags, file).Sent?
    ensures var d := ServerData(AddSubmit(values, author, tags, file).data);
            Truthy(d.title) && Truthy(d.category) && d.blogContent != "" && file.Some?
    ensures TagListOk(tags) ==>
              NewBlog(id, ServerData(AddSubmit(values, author, tags, file).data), image, suffix, encode).tags == tags
  {
    if TagListOk(tags) {
      NormalizeTagsKeepsNormal(tags);
    }
  }

  /** Saving an edit whose image was cleared keeps the stored image, and a
      well-kept tag list is stored exactly as edited. */
  lemma ClearedEditImageKeepsStored(blog: BlogRecord, values: BlogForm, tags: seq<string>, encode: string -> string)
    requires FormValid(values)
    ensures var s := EditSubmit(values, tags, ClearEditImage(Some(blog.featuredImage)).file);
            s.Sent? && s.file.None?
            && EditedBlog(blog, ServerData(s.data), s.file, encode).featuredImage == blog.featuredImage
    ensures TagListOk(tags) ==>
              var s := EditSubmit(values, tags, None);
              EditedBlog(blog, ServerData(s.data), s.file, encode).tags == tags
  {
    if TagListOk(tags) {
      NormalizeTagsKeepsNormal(tags);
    }
  }
}
