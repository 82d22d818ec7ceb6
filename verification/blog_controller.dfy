/** The blog handlers (backend/controllers/blogController.js). The blog schema
    (backend/models/Blog.js) is not part of this model: a post keeps its body's
    fields as given, and whether the schema accepts them is a parameter. */
module BlogController {
  import opened Common
  import Lists

  /** A stored post: the body's fields apart from `author`, the author, and the
      timestamps that `sort('-createdAt')` orders by. */
  datatype Blog = Blog(id: BlogId, author: UserId, fields: map<string, string>, createdAt: int, updatedAt: int)

  /** `{ ...req.body, author: req.user._id }`: the body's own `author` key is
      overridden by the caller. */
  function NewBlog(body: map<string, string>, caller: UserId, id: BlogId, now: int): (b: Blog)
    ensures b.author == caller && b.id == id
    ensures "author" !in b.fields
    ensures forall k :: k in b.fields <==> k in body && k != "author"
    ensures forall k | k in b.fields :: b.fields[k] == body[k]
    ensures b.createdAt == now && b.updatedAt == now
  {
    Blog(id, caller, body - {"author"}, now, now)
  }

  /** Whatever author the body names, the post's author is the caller. */
  lemma AuthorInBodyIgnored(body: map<string, string>, forged: string, caller: UserId, id: BlogId, now: int)
    ensures NewBlog(body["author" := forged], caller, id, now) == NewBlog(body, caller, id, now)
  {
    assert body["author" := forged] - {"author"} == body - {"author"};
  }

  class BlogCollection {
    var blogs: map<BlogId, Blog>
    var nextId: BlogId

    ghost predicate Valid()
      reads this
    {
      forall id :: id in blogs ==> blogs[id].id == id && id < nextId
    }

    constructor ()
      ensures Valid() && blogs == map[]
    {
      blogs := map[];
      nextId := 0;
    }

    /** `createBlog`: 201 with the stored post when the schema accepts it (`valid`),
        400 and nothing stored otherwise. */
    method CreateBlog(caller: UserId, body: map<string, string>, valid: bool, now: int)
      returns (reply: Reply<Blog>)
      requires Valid()
      modifies this
      ensures Valid()
      ensures valid ==>
        && reply == Ok(201, NewBlog(body, caller, old(nextId), now))
        && reply.data.author == caller
        && old(nextId) !in old(blogs)
        && blogs == old(blogs)[old(nextId) := reply.data]
      ensures !valid ==> reply == Err(400, ValidationFailed) && blogs == old(blogs)
    {
      if !valid {
        return Err(400, ValidationFailed);
      }
      var b := NewBlog(body, caller, nextId, now);
      blogs := blogs[nextId := b];
      nextId := nextId + 1;
      reply := Ok(201, b);
    }

    /** `getBlogs`: every post, unfiltered, newest first. */
    method GetBlogs() returns (r: seq<Blog>)
      ensures forall b :: b in r <==> b in blogs.Values
      ensures Lists.NoDuplicates(r)
      ensures forall i, j :: 0 <= i < j < |r| ==> r[i].createdAt >= r[j].createdAt
    {
      r := Lists.SelectNewestFirst(blogs, (b: Blog) => true, (b: Blog) => b.createdAt as real);
    }
  }
}
