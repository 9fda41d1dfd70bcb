/** The admin blog slice of the client store: the thunks' response normalisers and the
    reducer, whose state is a class and whose `addCase` handlers are its methods. */
module BlogSlice {

  import opened Wrappers
  import opened Js
  import Lists
  import Text

  /** The `getBlogs` normaliser: the body when it is an array, else its `blogs` property when
      that is an array, else the body unchanged. */
  function NormalizeBlogs(data: Value): (r: Value)
    ensures r == data || r == Prop(data, "blogs")
    ensures r.Arr? <==> data.Arr? || Prop(data, "blogs").Arr?
    ensures data.Arr? ==> r == data
    ensures !data.Arr? && Prop(data, "blogs").Arr? ==> r == Prop(data, "blogs")
    ensures !data.Arr? && !Prop(data, "blogs").Arr? ==> r == data
  {
    if data.Arr? then data
    else if Prop(data, "blogs").Arr? then Prop(data, "blogs")
    else data
  }

  /** The `createBlog` and `updateBlog` normaliser `res.data.blog ?? res.data`; reading `.blog`
      of a `null` body throws, which rejects the thunk (`None`). */
  function NormalizeSaved(data: Value): (r: Option<Value>)
    ensures r.None? <==> Nullish(data)
    ensures r.Some? && !Nullish(Prop(data, "blog")) ==> r.value == Prop(data, "blog")
    ensures r.Some? && Nullish(Prop(data, "blog")) ==> r.value == data
  {
    match Read(data, "blog")
    case None => None
    case Some(blog) => Some(Coalesce(blog, data))
  }

  /** A dispatched action: its `type`, its `payload` and `error.message`. */
  datatype Action = Action(kind: string, payload: Value, errorMessage: Option<string>)

  /** The slice state `{blogs, loading, error}`. */
  class BlogStore {
    var blogs: seq<Value>
    var loading: bool
    var error: Option<string>

    /** `initialState`. */
    constructor ()
      ensures blogs == [] && !loading && error == None
    {
      blogs, loading, error := [], false, None;
    }

    /** `createBlog.pending` and `getBlogs.pending`. */
    method Pending()
      modifies this
      ensures loading && blogs == old(blogs) && error == old(error)
    {
      loading := true;
    }

    /** `createBlog.fulfilled`: a truthy payload is appended. */
    method CreateFulfilled(payload: Value)
      modifies this
      ensures !loading && error == old(error)
      ensures blogs == if Truthy(payload) then old(blogs) + [payload] else old(blogs)
    {
      loading := false;
      if Truthy(payload) {
        blogs := blogs + [payload];
      }
    }

    /** `getBlogs.fulfilled`: the list becomes the payload if it is an array, else empty. */
    method GetFulfilled(payload: Value)
      modifies this
      ensures !loading && error == old(error)
      ensures blogs == if payload.Arr? then payload.items else []
    {
      loading := false;
      blogs := if payload.Arr? then payload.items else [];
    }

    /** `updateBlog.fulfilled`: a falsy payload changes nothing; otherwise the first blog with
        the payload's `_id` is replaced, or the payload is appended when none has it. */
    method UpdateFulfilled(payload: Value)
      modifies this
      ensures loading == old(loading) && error == old(error)
      ensures blogs == if Truthy(payload) then Lists.Upsert(old(blogs), IdOf, payload) else old(blogs)
    {
      if !Truthy(payload) {
        return;
      }
      var index := Lists.FindIndex(blogs, IdOf, IdOf(payload));
      if index != -1 {
        blogs := blogs[index := payload];
      } else {
        blogs := blogs + [payload];
      }
    }

    /** `deleteBlog.fulfilled`: every blog whose `_id` is the payload is dropped. */
    method DeleteFulfilled(id: Value)
      modifies this
      ensures loading == old(loading) && error == old(error)
      ensures blogs == Lists.RemoveKey(old(blogs), IdOf, id)
    {
      blogs := Lists.RemoveKey(blogs, IdOf, id);
    }

    /** The `/rejected` matcher. */
    method Rejected(message: Option<string>)
      modifies this
      ensures !loading && error == message && blogs == old(blogs)
    {
      loading := false;
      error := message;
    }

    /** The slice reducer: the case for the action's type, or for any type ending in
        `/rejected` (from this slice or any other) the error matcher; other actions are ignored. */
    method Dispatch(action: Action)
      modifies this
      ensures action.kind == "blog/create/pending" || action.kind == "blog/getBlogs/pending" ==>
                loading && blogs == old(blogs) && error == old(error)
      ensures action.kind == "blog/create/fulfilled" ==>
                !loading && error == old(error)
                && blogs == if Truthy(action.payload) then old(blogs) + [action.payload] else old(blogs)
      ensures action.kind == "blog/getBlogs/fulfilled" ==>
                !loading && error == old(error)
                && blogs == if action.payload.Arr? then action.payload.items else []
      ensures action.kind == "blog/update/fulfilled" ==>
                loading == old(loading) && error == old(error)
                && blogs == if Truthy(action.payload) then Lists.Upsert(old(blogs), IdOf, action.payload) else old(blogs)
      ensures action.kind == "blog/delete/fulfilled" ==>
                loading == old(loading) && error == old(error)
                && blogs == Lists.RemoveKey(old(blogs), IdOf, action.payload)
      ensures Text.EndsWith(action.kind, "/rejected") ==>
                !loading && error == action.errorMessage && blogs == old(blogs)
      ensures action.kind !in CaseTypes && !Text.EndsWith(action.kind, "/rejected") ==>
                blogs == old(blogs) && loading == old(loading) && error == old(error)
    {
      var kind := action.kind;
      if kind == "blog/create/pending" || kind == "blog/getBlogs/pending" {
        Pending();
      } else if kind == "blog/create/fulfilled" {
        CreateFulfilled(action.payload);
      } else if kind == "blog/getBlogs/fulfilled" {
        GetFulfilled(action.payload);
      } else if kind == "blog/update/fulfilled" {
        UpdateFulfilled(action.payload);
      } else if kind == "blog/delete/fulfilled" {
        DeleteFulfilled(action.payload);
      } else if Text.EndsWith(kind, "/rejected") {
        Rejected(action.errorMessage);
      }
    }
  }

  /** The action types the slice has a case for; update and delete have no pending case. */
  const CaseTypes: set<string> := {
    "blog/create/pending", "blog/create/fulfilled", "blog/getBlogs/pending",
    "blog/getBlogs/fulfilled", "blog/update/fulfilled", "blog/delete/fulfilled"
  }

  /** What a successful fetch leaves in the list, from the raw response body: the body's
      array, or its `blogs` array, or nothing. */
  lemma FetchedBlogs(data: Value)
    ensures var stored := if NormalizeBlogs(data).Arr? then NormalizeBlogs(data).items else [];
      && (data.Arr? ==> stored == data.items)
      && (!data.Arr? && Prop(data, "blogs").Arr? ==> stored == Prop(data, "blogs").items)
      && (!data.Arr? && !Prop(data, "blogs").Arr? ==> stored == [])
  {
  }
}
