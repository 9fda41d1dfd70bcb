/** The blog create endpoint (`POST /api/admin/blog/create`): validation of the multipart
    fields and the cursor pass that gives each image block of the parsed content the
    next uploaded file. */
module BlogCreate {

  import opened Wrappers

  datatype Kind = Text | Image

  /** One content block as its JSON carries it: `{type, value?}`. */
  datatype WireBlock = WireBlock(kind: Kind, value: Option<string>)

  /** A file multer stored for the `images` field, known by the name it generated. */
  datatype UploadedFile = UploadedFile(filename: string)

  /** The `content` form field: absent or empty, text that `JSON.parse` (or the `map`
      that follows it) rejects with the given error message, or a parsed block array. */
  datatype ContentField =
    | Missing
    | Unparsable(parseError: string)
    | Parsed(blocks: seq<WireBlock>)

  /** What the database does in this request: connects and assigns the new document's
      `_id`, or throws in `connectDb` or in `Blog.create` with the given message. */
  datatype Database =
    | Available(newId: string)
    | ConnectFails(connectError: string)
    | CreateFails(createError: string)

  /** The created document; `likes` and `views` take the schema's default 0. */
  datatype BlogDoc = BlogDoc(id: string, title: string, content: seq<WireBlock>, likes: int, views: int)

  /** The JSON reply `{success, message?, blog?}` with its HTTP status. */
  datatype Response = Response(status: int, success: bool, message: Option<string>, blog: Option<BlogDoc>)

  const MissingFieldsMessage := "Title or content string missing"
  const MissingImageMessage := "Image file missing for image block"

  /** `!title` is false: the field is present and not the empty string. */
  predicate Present(field: Option<string>)
  {
    field.Some? && field.value != ""
  }

  /** The public path the handler stores for an uploaded file. */
  function UploadPath(file: UploadedFile): string
  {
    "/uploads/" + file.filename
  }

  /** The number of image blocks in `blocks`. */
  function ImageCount(blocks: seq<WireBlock>): (n: nat)
    ensures n <= |blocks|
  {
    if blocks == [] then 0
    else ImageCount(blocks[..|blocks| - 1]) + (if blocks[|blocks| - 1].kind == Image then 1 else 0)
  }

  /** A prefix holds no more image blocks than the whole list. */
  lemma {:induction false} ImageCountPrefix(blocks: seq<WireBlock>, i: nat)
    requires i <= |blocks|
    ensures ImageCount(blocks[..i]) <= ImageCount(blocks)
    decreases |blocks|
  {
    if i < |blocks| {
      assert blocks[..|blocks| - 1][..i] == blocks[..i];
      ImageCountPrefix(blocks[..|blocks| - 1], i);
    } else {
      assert blocks[..i] == blocks;
    }
  }

  /** The result of the `parsedContent.map` pass: each image block, in order, takes the file
      at the cursor (the number of image blocks before it) and the cursor advances; text
      blocks are returned as they are. Running out of files throws `MissingImageMessage`.
      Defined by its last block, as the pass leaves it after each step. */
  function Correlate(blocks: seq<WireBlock>, files: seq<UploadedFile>): Result<seq<WireBlock>>
  {
    if blocks == [] then Success([])
    else
      var init, last := blocks[..|blocks| - 1], blocks[|blocks| - 1];
      match Correlate(init, files)
      case Failure(e) => Failure(e)
      case Success(done) =>
        if last.kind != Image then Success(done + [last])
        else if ImageCount(init) < |files| then
          Success(done + [WireBlock(Image, Some(UploadPath(files[ImageCount(init)])))])
        else Failure(MissingImageMessage)
  }

  /** `out` is what the pass must produce: same length and block types as `blocks`, text
      blocks unchanged, and the image block at `i` holding the upload path of the file whose
      index is the number of image blocks before `i`, whatever value it carried before. */
  ghost predicate Correlated(blocks: seq<WireBlock>, files: seq<UploadedFile>, out: seq<WireBlock>)
  {
    && |out| == |blocks|
    && forall i | 0 <= i < |blocks| ::
         && out[i].kind == blocks[i].kind
         && (blocks[i].kind == Text ==> out[i] == blocks[i])
         && (blocks[i].kind == Image ==>
               ImageCount(blocks[..i]) < |files|
               && out[i].value == Some(UploadPath(files[ImageCount(blocks[..i])])))
  }

  /** The pass succeeds exactly when there are at least as many files as image blocks, and
      then its output is the correlated content; otherwise it fails with the missing-image error. */
  lemma {:induction false} CorrelateSpec(blocks: seq<WireBlock>, files: seq<UploadedFile>)
    ensures Correlate(blocks, files).Success? <==> ImageCount(blocks) <= |files|
    ensures Correlate(blocks, files).Success? ==> Correlated(blocks, files, Correlate(blocks, files).value)
    ensures Correlate(blocks, files).Failure? ==> Correlate(blocks, files).error == MissingImageMessage
    decreases |blocks|
  {
    if blocks != [] {
      var init, last := blocks[..|blocks| - 1], blocks[|blocks| - 1];
      CorrelateSpec(init, files);
      var r := Correlate(blocks, files);
      if r.Success? {
        var done := Correlate(init, files).value;
        var out := r.value;
        forall i | 0 <= i < |blocks|
          ensures out[i].kind == blocks[i].kind
          ensures blocks[i].kind == Text ==> out[i] == blocks[i]
          ensures blocks[i].kind == Image ==>
                    ImageCount(blocks[..i]) < |files|
                    && out[i].value == Some(UploadPath(files[ImageCount(blocks[..i])]))
        {
          if i < |init| {
            assert blocks[..i] == init[..i];
            assert out[i] == done[i];
          } else {
            assert blocks[..i] == init;
          }
        }
      }
    }
  }

  /** Files beyond the number of image blocks are never looked at. */
  lemma {:induction false} CorrelateIgnoresSurplus(blocks: seq<WireBlock>, files: seq<UploadedFile>, extra: seq<UploadedFile>)
    requires ImageCount(blocks) <= |files|
    ensures Correlate(blocks, files + extra) == Correlate(blocks, files)
    decreases |blocks|
  {
    if blocks != [] {
      var init := blocks[..|blocks| - 1];
      assert ImageCount(init) <= ImageCount(blocks);
      CorrelateIgnoresSurplus(init, files, extra);
      if blocks[|blocks| - 1].kind == Image {
        assert (files + extra)[ImageCount(init)] == files[ImageCount(init)];
      }
    }
  }

  /** Two different image blocks take two different files: the cursor only moves forward. */
  lemma ImageRanksDistinct(blocks: seq<WireBlock>, i: nat, j: nat)
    requires i < j < |blocks| && blocks[i].kind == Image
    ensures ImageCount(blocks[..i]) < ImageCount(blocks[..j])
  {
    ImageCountPrefix(blocks[..j], i + 1);
    assert blocks[..j][..i + 1] == blocks[..i + 1];
    assert blocks[..i + 1][..i] == blocks[..i];
  }

  /** Every file below the number of image blocks is taken by some image block, so with
      exactly as many files as image blocks every upload is used once. */
  lemma {:induction false} ImageRanksOnto(blocks: seq<WireBlock>, k: nat)
    requires k < ImageCount(blocks)
    ensures exists i | 0 <= i < |blocks| :: blocks[i].kind == Image && ImageCount(blocks[..i]) == k
    decreases |blocks|
  {
    var init := blocks[..|blocks| - 1];
    if k < ImageCount(init) {
      ImageRanksOnto(init, k);
      var i :| 0 <= i < |init| && init[i].kind == Image && ImageCount(init[..i]) == k;
      assert init[..i] == blocks[..i];
    } else {
      assert blocks[..|blocks| - 1] == init;
      assert blocks[|blocks| - 1].kind == Image && ImageCount(blocks[..|blocks| - 1]) == k;
    }
  }

  /** The handler's `map` over the parsed blocks with the mutable cursor `imageIndex`;
      an image block with no file left aborts the pass. */
  method InjectImagePaths(blocks: seq<WireBlock>, files: seq<UploadedFile>) returns (r: Result<seq<WireBlock>>)
    ensures r == Correlate(blocks, files)
  {
    var finalContent: seq<WireBlock> := [];
    var imageIndex := 0;
    var i := 0;
    while i < |blocks|
      invariant 0 <= i <= |blocks|
      invariant imageIndex == ImageCount(blocks[..i])
      invariant Correlate(blocks[..i], files) == Success(finalContent)
    {
      assert blocks[..i + 1][..i] == blocks[..i];
      var block := blocks[i];
      if block.kind == Image {
        if imageIndex >= |files| {
          CorrelateSpec(blocks[..i + 1], files);
          ImageCountPrefix(blocks, i + 1);
          CorrelateSpec(blocks, files);
          return Failure(MissingImageMessage);
        }
        var file := files[imageIndex];
        imageIndex := imageIndex + 1;
        finalContent := finalContent + [WireBlock(Image, Some(UploadPath(file)))];
      } else {
        finalContent := finalContent + [block];
      }
      i := i + 1;
    }
    assert blocks[..i] == blocks;
    r := Success(finalContent);
  }

  /** The POST handler: connect, validate `title` and `content`, parse, correlate the
      uploads, create the document; every thrown error becomes a 500 with its message. */
  method Create(title: Option<string>, content: ContentField, files: seq<UploadedFile>, db: Database)
    returns (resp: Response)
    ensures resp.status == 201 || resp.status == 400 || resp.status == 500
    ensures resp.success <==> resp.status == 201
    ensures resp.blog.Some? <==> resp.status == 201
    ensures resp.status == 201 ==> resp.message.None?
    ensures db.ConnectFails? ==> resp == Response(500, false, Some(db.connectError), None)
    ensures !db.ConnectFails? && (!Present(title) || content.Missing?) ==>
              resp == Response(400, false, Some(MissingFieldsMessage), None)
    ensures resp.status == 400 <==> !db.ConnectFails? && (!Present(title) || content.Missing?)
    ensures !db.ConnectFails? && Present(title) && content.Unparsable? ==>
              resp == Response(500, false, Some(content.parseError), None)
    ensures db.CreateFails? && Present(title) && content.Parsed? && ImageCount(content.blocks) <= |files| ==>
              resp == Response(500, false, Some(db.createError), None)
    ensures resp.status == 201 <==>
              db.Available? && Present(title) && content.Parsed? && ImageCount(content.blocks) <= |files|
    ensures !db.ConnectFails? && Present(title) && content.Parsed? && ImageCount(content.blocks) > |files| ==>
              resp == Response(500, false, Some(MissingImageMessage), None)
    ensures resp.blog.Some? ==>
              var b := resp.blog.value;
              && db == Available(b.id) && title == Some(b.title)
              && content.Parsed? && Correlate(content.blocks, files) == Success(b.content)
              && Correlated(content.blocks, files, b.content)
              && b.likes == 0 && b.views == 0
  {
    if db.ConnectFails? {
      return Response(500, false, Some(db.connectError), None);
    }
    if !Present(title) || content.Missing? {
      return Response(400, false, Some(MissingFieldsMessage), None);
    }
    if content.Unparsable? {
      return Response(500, false, Some(content.parseError), None);
    }
    CorrelateSpec(content.blocks, files);
    var finalContent := InjectImagePaths(content.blocks, files);
    if finalContent.Failure? {
      return Response(500, false, Some(finalContent.error), None);
    }
    if db.CreateFails? {
      return Response(500, false, Some(db.createError), None);
    }
    var blog := BlogDoc(db.newId, title.value, finalContent.value, 0, 0);
    return Response(201, true, None, Some(blog));
  }
}
