/** The document collections the controllers read and write, as in-memory
    tables. Mongo queries become searches over a sequence in storage order;
    `_id` values are opaque strings. */
module Db {
  import opened Wrappers
  import opened Seqs

  /** A stored user. `password` holds the bcrypt hash. */
  datatype UserRecord = UserRecord(
    id: string,
    role: string,
    name: string,
    email: string,
    bio: Option<string>,
    avatar: Option<string>,
    password: string,
    bookmarks: seq<string>)

  /** A user as the API returns it: `toObject()` with `password` deleted, or
      a `select("-password")` projection. The type has no password field. */
  datatype PublicUser = PublicUser(
    id: string,
    role: string,
    name: string,
    email: string,
    bio: Option<string>,
    avatar: Option<string>,
    bookmarks: seq<string>)

  function Public(u: UserRecord): PublicUser {
    PublicUser(u.id, u.role, u.name, u.email, u.bio, u.avatar, u.bookmarks)
  }

  /** `User.findById(id)`: the index of the user with that id, or -1. */
  function UserIndexById(users: seq<UserRecord>, id: string): int {
    First(users, (u: UserRecord) => u.id == id)
  }

  /** The lookup by id finds nothing exactly when no user has that id. */
  lemma NoUserWithId(users: seq<UserRecord>, id: string)
    ensures UserIndexById(users, id) == -1 <==> forall k :: 0 <= k < |users| ==> users[k].id != id
  {
    FirstNone(users, (u: UserRecord) => u.id == id);
  }

  /** `User.findOne({ email })`: the first user with that e-mail, or -1. */
  function UserIndexByEmail(users: seq<UserRecord>, email: string): int {
    First(users, (u: UserRecord) => u.email == email)
  }

  class UserTable {
    var users: seq<UserRecord>

    constructor (users: seq<UserRecord>)
      ensures this.users == users
    {
      this.users := users;
    }
  }

  /** A stored blog post. `category` and `slug` are absent when a request
      assigned `undefined` to them. */
  datatype BlogRecord = BlogRecord(
    id: string,
    author: string,
    category: Option<string>,
    title: string,
    slug: Option<string>,
    featuredImage: string,
    blogContent: string,
    readingTime: int,
    tags: seq<string>)

  /** `Blog.findById(id)`: the index of the blog with that id, or -1. */
  function BlogIndexById(blogs: seq<BlogRecord>, id: string): int {
    First(blogs, (b: BlogRecord) => b.id == id)
  }

  class BlogTable {
    var blogs: seq<BlogRecord>

    constructor (blogs: seq<BlogRecord>)
      ensures this.blogs == blogs
    {
      this.blogs := blogs;
    }
  }
}
