/** Blog creation, update, search, listing and the dashboard filter
    (backend/controllers/Blog.controller.js). The request's `data` field
    arrives already parsed; the Cloudinary upload arrives as the URL it
    returned, or `None` when the request carries no file; `encode` stands for
    the `entities` library and `suffix` for `Math.round(Math.random() * 100000)`. */
module BlogController {
  import opened Wrappers
  import opened Text
  import opened Http
  import opened Identity
  import opened Seqs
  import opened Db
  import opened ReadingTime

  const RequiredFields := "Title, category, and content are required."
  const ImageRequired := "Featured image is required."
  const BlogNotFound := "Blog not found."
  const MissingTitle := "Cannot read properties of undefined (reading 'trim')"
  const BlogAdded := "Blog added successfully."
  const BlogUpdated := "Blog updated successfully."
  const MaxSuffix := 100000

  /** The parsed `req.body.data`. */
  datatype BlogData = BlogData(
    author: string,
    category: Option<string>,
    title: Option<string>,
    slug: Option<string>,
    blogContent: string,
    tags: Option<seq<string>>)

  /** A tag as the schema setter stores it: lower-cased, then trimmed. */
  predicate IsNormalTag(t: string) {
    Normalize(t) == t
  }

  /** The `tags` setter of the blog schema, applied on every assignment. */
  function NormalizeTags(tags: seq<string>): (r: seq<string>)
    ensures |r| == |tags|
    ensures forall i :: 0 <= i < |r| ==> r[i] == Normalize(tags[i]) && IsNormalTag(r[i])
  {
    NormalizeAllNormal(tags);
    seq(|tags|, i requires 0 <= i < |tags| => Normalize(tags[i]))
  }

  lemma NormalizeAllNormal(tags: seq<string>)
    ensures forall i :: 0 <= i < |tags| ==> IsNormalTag(Normalize(tags[i]))
  {
    forall i | 0 <= i < |tags| ensures IsNormalTag(Normalize(tags[i])) {
      NormalizeIdempotent(tags[i]);
    }
  }

  /** Assigning tags that are already normalised changes nothing, so the
      setter run on `blog.tags = blog.tags` keeps a stored list as it is. */
  lemma NormalizeTagsKeepsNormal(tags: seq<string>)
    requires forall i :: 0 <= i < |tags| ==> IsNormalTag(tags[i])
    ensures NormalizeTags(tags) == tags
  {
    var r := NormalizeTags(tags);
    assert forall i :: 0 <= i < |r| ==> r[i] == tags[i];
  }

  /** `${data.slug}`: a missing slug renders as "undefined". */
  function SlugBase(slug: Option<string>): string {
    if slug.Some? then slug.value else "undefined"
  }

  /** The slug `addBlog` stores: the submitted slug, a dash and the random
      number in decimal. */
  function SuffixedSlug(slug: Option<string>, suffix: nat): (r: string)
    ensures |r| > |SlugBase(slug)| + 1
    ensures r[..|SlugBase(slug)|] == SlugBase(slug) && r[|SlugBase(slug)|] == '-'
    ensures IsDecimal(r[|SlugBase(slug)| + 1..]) && DecimalValue(r[|SlugBase(slug)| + 1..]) == suffix
  {
    var r := SlugBase(slug) + ['-'] + NatToString(suffix);
    NatToStringDecimal(suffix);
    assert r[|SlugBase(slug)| + 1..] == NatToString(suffix);
    r
  }

  /** Different random numbers give different slugs for the same title. */
  lemma SuffixesDistinguishSlugs(slug: Option<string>, m: nat, n: nat)
    requires m != n
    ensures SuffixedSlug(slug, m) != SuffixedSlug(slug, n)
  {
  }

  /** The record `addBlog` saves. */
  function NewBlog(id: string, data: BlogData, image: string, suffix: nat, encode: string -> string): (b: BlogRecord)
    requires Truthy(data.title) && Truthy(data.category)
    ensures b.id == id && b.author == data.author && b.category == data.category
    ensures b.title == Trim(data.title.value) && IsTrimmed(b.title)
    ensures b.slug == Some(SuffixedSlug(data.slug, suffix))
    ensures b.featuredImage == image && b.blogContent == encode(data.blogContent)
    ensures b.readingTime == CalculateReadingTime(data.blogContent) && b.readingTime >= 1
    ensures data.tags.None? ==> b.tags == []
    ensures data.tags.Some? ==> b.tags == NormalizeTags(data.tags.value)
    ensures forall i :: 0 <= i < |b.tags| ==> IsNormalTag(b.tags[i])
  {
    BlogRecord(
      id, data.author, data.category, Trim(data.title.value),
      Some(SuffixedSlug(data.slug, suffix)), image, encode(data.blogContent),
      CalculateReadingTime(data.blogContent),
      NormalizeTags(if data.tags.Some? then data.tags.value else []))
  }

  /** `addBlog`: validate the fields, then the file, then save. */
  method AddBlog(blogs: BlogTable, id: string, data: BlogData, upload: Option<string>, suffix: nat,
                 encode: string -> string) returns (r: Reply<string>)
    requires suffix <= MaxSuffix
    modifies blogs
    ensures !Truthy(data.title) || !Truthy(data.category) || data.blogContent == "" ==>
              r == Fail(HttpError(400, RequiredFields))
    ensures Truthy(data.title) && Truthy(data.category) && data.blogContent != "" && upload.None? ==>
              r == Fail(HttpError(400, ImageRequired))
    ensures Truthy(data.title) && Truthy(data.category) && data.blogContent != "" && upload.Some? ==> r.Ok?
    ensures r.Fail? ==> blogs.blogs == old(blogs.blogs)
    ensures r.Ok? ==>
              Truthy(data.title) && Truthy(data.category) && data.blogContent != "" && upload.Some?
              && blogs.blogs == old(blogs.blogs) + [NewBlog(id, data, upload.value, suffix, encode)]
              && r == Ok(201, BlogAdded)
  {
    if !Truthy(data.title) || !Truthy(data.category) || data.blogContent == "" {
      return Fail(HttpError(400, RequiredFields));
    }
    var featuredImage := "";
    if upload.Some? {
      featuredImage := upload.value;
    } else {
      return Fail(HttpError(400, ImageRequired));
    }
    var readingTime := CalculateReadingTime(data.blogContent);
    var blog := BlogRecord(
      id, data.author, data.category, Trim(data.title.value),
      Some(SlugBase(data.slug) + ['-'] + NatToString(suffix)), featuredImage,
      encode(data.blogContent), readingTime,
      NormalizeTags(if data.tags.Some? then data.tags.value else []));
    blogs.blogs := blogs.blogs + [blog];
    r := Ok(201, BlogAdded);
  }

  /** The stored blog after `updateBlog`'s assignments. */
  function EditedBlog(blog: BlogRecord, data: BlogData, upload: Option<string>, encode: string -> string): (b: BlogRecord)
    requires data.title.Some?
    ensures b.id == blog.id && b.author == blog.author
    ensures b.category == data.category && b.slug == data.slug
    ensures b.title == Trim(data.title.value) && IsTrimmed(b.title)
    ensures b.blogContent == encode(data.blogContent)
    ensures b.readingTime == CalculateReadingTime(data.blogContent) && b.readingTime >= 1
    ensures upload.None? ==> b.featuredImage == blog.featuredImage
    ensures upload.Some? ==> b.featuredImage == upload.value
    ensures data.tags.Some? ==> b.tags == NormalizeTags(data.tags.value)
    ensures data.tags.None? ==> b.tags == NormalizeTags(blog.tags)
    ensures forall i :: 0 <= i < |b.tags| ==> IsNormalTag(b.tags[i])
  {
    blog.(category := data.category,
          title := Trim(data.title.value),
          slug := data.slug,
          blogContent := encode(data.blogContent),
          readingTime := CalculateReadingTime(data.blogContent),
          tags := NormalizeTags(if data.tags.Some? then data.tags.value else blog.tags),
          featuredImage := if upload.Some? then upload.value else blog.featuredImage)
  }

  /** Without new tags, an update keeps the stored (normalised) tags exactly. */
  lemma UpdateKeepsTags(blog: BlogRecord, data: BlogData, upload: Option<string>, encode: string -> string)
    requires data.title.Some? && data.tags.None?
    requires forall i :: 0 <= i < |blog.tags| ==> IsNormalTag(blog.tags[i])
    ensures EditedBlog(blog, data, upload, encode).tags == blog.tags
  {
    NormalizeTagsKeepsNormal(blog.tags);
  }

  /** `updateBlog`: find the blog, assign its fields one by one, save. A
      missing title makes `data.title.trim()` throw before anything is saved. */
  method UpdateBlog(blogs: BlogTable, blogid: string, data: BlogData, upload: Option<string>,
                    encode: string -> string) returns (r: Reply<string>)
    modifies blogs
    ensures BlogIndexById(old(blogs.blogs), blogid) == -1 ==> r == Fail(HttpError(404, BlogNotFound))
    ensures BlogIndexById(old(blogs.blogs), blogid) >= 0 && data.title.None? ==>
              r == Fail(HttpError(500, MissingTitle))
    ensures BlogIndexById(old(blogs.blogs), blogid) >= 0 && data.title.Some? ==> r.Ok?
    ensures r.Fail? ==> blogs.blogs == old(blogs.blogs)
    ensures r.Ok? ==>
              var i := BlogIndexById(old(blogs.blogs), blogid);
              0 <= i && data.title.Some?
              && blogs.blogs == old(blogs.blogs)[i := EditedBlog(old(blogs.blogs)[i], data, upload, encode)]
              && r == Ok(200, BlogUpdated)
  {
    var i := BlogIndexById(blogs.blogs, blogid);
    if i < 0 {
      return Fail(HttpError(404, BlogNotFound));
    }
    var blog := blogs.blogs[i];
    blog := blog.(category := data.category);
    if data.title.None? {
      return Fail(HttpError(500, MissingTitle));
    }
    blog := blog.(title := Trim(data.title.value));
    blog := blog.(slug := data.slug);
    blog := blog.(blogContent := encode(data.blogContent));
    blog := blog.(readingTime := CalculateReadingTime(data.blogContent));
    blog := blog.(tags := NormalizeTags(if data.tags.Some? then data.tags.value else blog.tags));
    if upload.Some? {
      blog := blog.(featuredImage := upload.value);
    }
    blogs.blogs := blogs.blogs[i := blog];
    r := Ok(200, BlogUpdated);
  }

  /** A query string that `search` treats as blank: absent, empty or white space. */
  predicate BlankQuery(q: Option<string>) {
    !Truthy(q) || |Trim(q.value)| == 0
  }

  /** `search`: a blank query answers an empty list without querying; any
      other query is trimmed and used as a case-insensitive pattern for the
      database's title/tag match, which `matches` stands for. A query that is
      not a valid pattern makes `new RegExp` throw: `patternError` gives the
      thrown message, or `None` for a valid pattern, and the catch answers
      500 with that message. */
  function Search(q: Option<string>, blogs: seq<BlogRecord>, matches: (string, BlogRecord) -> bool,
                  patternError: string -> Option<string>): (r: Reply<seq<BlogRecord>>)
    ensures BlankQuery(q) ==> r == Ok(200, [])
    ensures !BlankQuery(q) && patternError(Trim(q.value)).Some? ==>
              r == Fail(HttpError(500, patternError(Trim(q.value)).value))
    ensures !BlankQuery(q) && patternError(Trim(q.value)).None? ==>
              r.Ok? && r.status == 200 && forall b :: b in r.value <==> b in blogs && matches(Trim(q.value), b)
  {
    if BlankQuery(q) then Ok(200, [])
    else
      var query := Trim(q.value);
      match patternError(query)
      case Some(message) => Fail(HttpError(500, message))
      case None => Ok(200, Matching(blogs, query, matches))
  }

  /** The blogs the database match accepts for `query`, in storage order. */
  function Matching(blogs: seq<BlogRecord>, query: string, matches: (string, BlogRecord) -> bool): (r: seq<BlogRecord>)
    ensures forall b :: b in r <==> b in blogs && matches(query, b)
  {
    if blogs == [] then []
    else (if matches(query, blogs[0]) then [blogs[0]] else []) + Matching(blogs[1..], query, matches)
  }

  /** White space around the query does not change the result. */
  lemma SearchIgnoresSurroundingSpace(q: string, blogs: seq<BlogRecord>, matches: (string, BlogRecord) -> bool,
                                      patternError: string -> Option<string>)
    ensures Search(Some(Trim(q)), blogs, matches, patternError) == Search(Some(q), blogs, matches, patternError)
  {
    var t := Trim(q);
    var x := Search(Some(t), blogs, matches, patternError);
    var y := Search(Some(q), blogs, matches, patternError);
    assert x == y;
  }

  /** `Math.ceil(total / limit)` as JSON renders it: `None` when the division
      gives Infinity or NaN (limit 0), rounding up also for a negative limit. */
  function PageCount(total: nat, limit: int): (r: Option<int>)
    ensures limit == 0 <==> r.None?
    ensures limit > 0 ==> r.value * limit >= total && (r.value - 1) * limit < total + (if total == 0 then limit else 0)
    ensures limit > 0 ==> r.value >= 0
    ensures limit < 0 ==> r.value <= 0
  {
    if limit == 0 then None
    else if limit > 0 then Some((total + limit - 1) / limit)
    else Some(-(total / -limit))
  }

  /** `(parseInt(page) - 1) * parseInt(limit)`. */
  function Skip(page: int, limit: int): int {
    (page - 1) * limit
  }

  /** Mongo's `.skip(skip).limit(limit)`: limit 0 means no limit and a
      negative limit means its absolute value. */
  function Window(blogs: seq<BlogRecord>, skip: nat, limit: int): (r: seq<BlogRecord>)
    ensures forall k :: 0 <= k < |r| ==> skip + k < |blogs| && r[k] == blogs[skip + k]
    ensures limit != 0 ==> |r| <= (if limit < 0 then -limit else limit)
    ensures limit == 0 || |r| < (if limit < 0 then -limit else limit) ==> skip + |r| >= |blogs|
  {
    var rest := if skip <= |blogs| then blogs[skip..] else [];
    var n := if limit < 0 then -limit else limit;
    if n == 0 || n >= |rest| then rest else rest[..n]
  }

  datatype Pagination = Pagination(total: nat, page: int, pages: Option<int>)

  /** `getAllBlogs` with the optional `page` and `limit` query numbers. */
  datatype Listing = Listing(blog: seq<BlogRecord>, pagination: Pagination)

  /** `getAllBlogs`: page 1 and limit 12 by default. The database refuses a
      negative skip; its message is `rejected`. */
  function GetAllBlogs(blogs: seq<BlogRecord>, page: Option<int>, limit: Option<int>, rejected: string): (r: Reply<Listing>)
    ensures var p, l := page.GetOr(1), limit.GetOr(12);
            if Skip(p, l) < 0 then r == Fail(HttpError(500, rejected))
            else r.Ok? && r.status == 200
                 && r.value.blog == Window(blogs, Skip(p, l), l)
                 && r.value.pagination == Pagination(|blogs|, p, PageCount(|blogs|, l))
  {
    var p, l := page.GetOr(1), limit.GetOr(12);
    var skip := (p - 1) * l;
    if skip < 0 then Fail(HttpError(500, rejected))
    else Ok(200, Listing(Window(blogs, skip, l), Pagination(|blogs|, p, PageCount(|blogs|, l))))
  }

  /** With the default limit and no page, the first twelve blogs come back. */
  lemma DefaultListing(blogs: seq<BlogRecord>, rejected: string)
    ensures GetAllBlogs(blogs, None, None, rejected).Ok?
    ensures |blogs| >= 12 ==> GetAllBlogs(blogs, None, None, rejected).value.blog == blogs[..12]
    ensures |blogs| < 12 ==> GetAllBlogs(blogs, None, None, rejected).value.blog == blogs
  {
    var w := Window(blogs, 0, 12);
    if |blogs| >= 12 {
      assert w == blogs[..12];
    } else {
      assert w == blogs;
    }
  }

  /** With a positive limit, page `p` (from 1) is non-empty exactly when
      `p` is at most the page count, so the reported pages are all the
      pages there are. */
  lemma {:induction false} PagesCoverAllBlogs(blogs: seq<BlogRecord>, p: int, limit: int)
    requires limit > 0 && p >= 1
    ensures Window(blogs, Skip(p, limit), limit) != [] <==> p <= PageCount(|blogs|, limit).value
  {
    var total, c := |blogs|, PageCount(|blogs|, limit).value;
    var skip := Skip(p, limit);
    if p <= c {
      assert total > 0;
      MulMono(p - 1, c - 1, limit);
      assert skip < total;
      assert blogs[skip] == Window(blogs, skip, limit)[0];
    } else {
      MulMono(c, p - 1, limit);
      assert skip >= total;
    }
  }

  lemma MulMono(a: int, b: int, m: int)
    requires a <= b && m > 0
    ensures a * m <= b * m
  {
    assert b * m - a * m == (b - a) * m;
  }

  /** Every blog sits on exactly the page its position says. */
  lemma EveryBlogOnAPage(blogs: seq<BlogRecord>, k: int, limit: int)
    requires limit > 0 && 0 <= k < |blogs|
    ensures var p := k / limit + 1;
            1 <= p <= PageCount(|blogs|, limit).value
            && Skip(p, limit) <= k < Skip(p, limit) + limit
            && Window(blogs, Skip(p, limit), limit)[k - Skip(p, limit)] == blogs[k]
  {
    var p := k / limit + 1;
    assert Skip(p, limit) == (k / limit) * limit;
    PagesCoverAllBlogs(blogs, p, limit);
    var w := Window(blogs, Skip(p, limit), limit);
    assert |w| == limit || Skip(p, limit) + |w| >= |blogs|;
  }

  /** `showAllBlog`: an admin sees every blog, anybody else only their own. */
  function ShowAllBlog(caller: Payload, blogs: seq<BlogRecord>): (r: seq<BlogRecord>)
    ensures caller.role == "admin" ==> r == blogs
    ensures caller.role != "admin" ==> forall b :: b in r <==> b in blogs && b.author == caller.id
  {
    if caller.role == "admin" then blogs
    else Filter(blogs, (b: BlogRecord) => b.author == caller.id)
  }
}
