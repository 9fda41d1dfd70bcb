/** The new-blog page: the block editor (append, remove, move, edit) and the flattening
    `saveBlog` does before posting, which turns every image block holding a file into a
    value-less block and lists the files in a parallel upload list. */
module BlogEditor {

  import opened Wrappers
  import opened BlogCreate
  import Lists
  import Text

  /** A `File` chosen in the browser; only its identity matters here. */
  datatype LocalFile = LocalFile(name: string)

  /** A block's `value`: `null`, a string, or a `File`. */
  datatype BlockValue = Null | Str(s: string) | File(file: LocalFile)

  datatype Block = Block(kind: Kind, value: BlockValue)

  datatype Direction = Up | Down

  /** What the editor's handlers keep true: text blocks hold strings, image blocks hold
      `null` or a file. */
  ghost predicate WellFormed(content: seq<Block>)
  {
    forall i | 0 <= i < |content| ::
      && (content[i].kind == Text ==> content[i].value.Str?)
      && (content[i].kind == Image ==> !content[i].value.Str?)
  }

  /** `addTextBlock`: appends `{type: "text", value: ""}`. */
  function AddTextBlock(content: seq<Block>): (r: seq<Block>)
    ensures |r| == |content| + 1 && r[..|content|] == content
    ensures r[|content|] == Block(Text, Str(""))
    ensures WellFormed(content) ==> WellFormed(r)
  {
    content + [Block(Text, Str(""))]
  }

  /** `addImageBlock`: appends `{type: "image", value: null}`. */
  function AddImageBlock(content: seq<Block>): (r: seq<Block>)
    ensures |r| == |content| + 1 && r[..|content|] == content
    ensures r[|content|] == Block(Image, Null)
    ensures WellFormed(content) ==> WellFormed(r)
  {
    content + [Block(Image, Null)]
  }

  /** `removeBlock(index)`: drops exactly the block at `index`, the rest in order. */
  function RemoveBlock(content: seq<Block>, index: int): (r: seq<Block>)
    ensures 0 <= index < |content| ==> r == content[..index] + content[index + 1..]
    ensures !(0 <= index < |content|) ==> r == content
    ensures WellFormed(content) ==> WellFormed(r)
  {
    Lists.RemoveAt(content, index)
  }

  /** The list with the elements at `i` and `j` exchanged. */
  function Swap(s: seq<Block>, i: nat, j: nat): (r: seq<Block>)
    requires i < |s| && j < |s|
  {
    s[i := s[j]][j := s[i]]
  }

  /** What `moveBlock(index, direction)` leaves: the block exchanged with its upper or lower
      neighbour, or the list unchanged when there is no neighbour on that side. */
  function Moved(content: seq<Block>, index: nat, direction: Direction): seq<Block>
    requires index < |content|
  {
    if direction == Up && index > 0 then Swap(content, index, index - 1)
    else if direction == Down && index < |content| - 1 then Swap(content, index, index + 1)
    else content
  }

  /** Moving is a permutation: same length, same blocks, well-formedness kept. */
  lemma MovedIsPermutation(content: seq<Block>, index: nat, direction: Direction)
    requires index < |content|
    ensures |Moved(content, index, direction)| == |content|
    ensures multiset(Moved(content, index, direction)) == multiset(content)
    ensures WellFormed(content) ==> WellFormed(Moved(content, index, direction))
  {
    if direction == Up && index > 0 {
      SwapMultiset(content, index, index - 1);
    } else if direction == Down && index < |content| - 1 {
      SwapMultiset(content, index, index + 1);
    }
  }

  /** Moving the first block up or the last block down is a no-op. */
  lemma MovedAtEnds(content: seq<Block>, index: nat, direction: Direction)
    requires index < |content|
    requires (direction == Up && index == 0) || (direction == Down && index == |content| - 1)
    ensures Moved(content, index, direction) == content
  {
  }

  /** Otherwise the block and its neighbour trade places and nothing else moves. */
  lemma MovedSwapsNeighbours(content: seq<Block>, index: nat, direction: Direction)
    requires index < |content|
    ensures var r := Moved(content, index, direction);
      && (direction == Up && index > 0 ==>
            r[index] == content[index - 1] && r[index - 1] == content[index])
      && (direction == Down && index < |content| - 1 ==>
            r[index] == content[index + 1] && r[index + 1] == content[index])
      && var other := if direction == Up then index - 1 else index + 1;
         forall k | 0 <= k < |content| && k != index && k != other :: r[k] == content[k]
  {
  }

  lemma SwapMultiset(s: seq<Block>, i: nat, j: nat)
    requires i < |s| && j < |s|
    ensures multiset(Swap(s, i, j)) == multiset(s)
  {
    var t := s[i := s[j]];
    assert multiset(t) == multiset(s) - multiset{s[i]} + multiset{s[j]};
    assert multiset(t[j := s[i]]) == multiset(t) - multiset{t[j]} + multiset{s[i]};
  }

  /** Moving a block up and then moving it back down restores the list. */
  lemma MoveUpThenDown(content: seq<Block>, index: nat)
    requires 0 < index < |content|
    ensures Moved(Moved(content, index, Up), index - 1, Down) == content
  {
  }

  /** `moveBlock`: copies the list into a fresh array and exchanges two cells in place. */
  method MoveBlock(content: seq<Block>, index: nat, direction: Direction) returns (updated: seq<Block>)
    requires index < |content|
    ensures updated == Moved(content, index, direction)
  {
    var a := new Block[|content|](k requires 0 <= k < |content| => content[k]);
    assert a[..] == content;
    if direction == Up && index > 0 {
      a[index], a[index - 1] := a[index - 1], a[index];
    } else if direction == Down && index < a.Length - 1 {
      a[index], a[index + 1] := a[index + 1], a[index];
    }
    updated := a[..];
  }

  /** The text editor's `onChange`: the text block at `index` takes the new string. */
  function SetText(content: seq<Block>, index: nat, text: string): (r: seq<Block>)
    requires index < |content|
    ensures |r| == |content| && r[index] == Block(content[index].kind, Str(text))
    ensures forall k | 0 <= k < |content| && k != index :: r[k] == content[k]
    ensures WellFormed(content) && content[index].kind == Text ==> WellFormed(r)
  {
    content[index := Block(content[index].kind, Str(text))]
  }

  /** The image drop zone's `handleImage`: a dropped or selected file becomes the block's
      value; no file leaves the list as it is. */
  function SetImage(content: seq<Block>, index: nat, file: Option<LocalFile>): (r: seq<Block>)
    requires index < |content|
    ensures file.None? ==> r == content
    ensures file.Some? ==> |r| == |content| && r[index] == Block(content[index].kind, File(file.value))
    ensures forall k | 0 <= k < |content| && k != index :: r[k] == content[k]
    ensures WellFormed(content) && content[index].kind == Image ==> WellFormed(r)
  {
    if file.None? then content else content[index := Block(content[index].kind, File(file.value))]
  }

  /** `String(value ?? "")`; a `File` stringifies as `"[object File]"`. */
  function Stringify(v: BlockValue): string
  {
    match v
    case Null => ""
    case Str(s) => s
    case File(_) => "[object File]"
  }

  /** A block holding a file to upload. */
  predicate HasFile(b: Block)
  {
    b.kind == Image && b.value.File?
  }

  /** How `saveBlog` sends one block: `{type: "image"}` when it holds a file, otherwise
      its type and its stringified value. */
  function Clean(b: Block): (w: WireBlock)
    ensures w.kind == b.kind
    ensures w.value.None? <==> HasFile(b)
    ensures !HasFile(b) ==> w.value == Some(Stringify(b.value))
  {
    if HasFile(b) then WireBlock(Image, None) else WireBlock(b.kind, Some(Stringify(b.value)))
  }

  /** The `cleanContent` array, one cleaned block per block, in order. */
  function CleanContent(content: seq<Block>): (r: seq<WireBlock>)
    ensures |r| == |content|
    ensures forall k | 0 <= k < |content| :: r[k] == Clean(content[k])
  {
    if content == [] then []
    else CleanContent(content[..|content| - 1]) + [Clean(content[|content| - 1])]
  }

  /** The files appended to the `images` field, in block order. */
  function Uploads(content: seq<Block>): (r: seq<LocalFile>)
    ensures |r| == |FileBlocks(content)| <= |content|
  {
    if content == [] then []
    else
      var init, last := content[..|content| - 1], content[|content| - 1];
      FileBlocksExtend(content);
      Uploads(init) + (if HasFile(last) then [last.value.file] else [])
  }

  /** The positions of the blocks that hold a file. */
  ghost function FileBlocks(content: seq<Block>): set<int>
  {
    set i | 0 <= i < |content| && HasFile(content[i])
  }

  /** Adding a block adds its position to the file positions exactly when it holds a file. */
  lemma FileBlocksExtend(content: seq<Block>)
    requires content != []
    ensures var n := |content| - 1;
      && FileBlocks(content) == FileBlocks(content[..n]) + (if HasFile(content[n]) then {n} else {})
      && |FileBlocks(content)| == |FileBlocks(content[..n])| + (if HasFile(content[n]) then 1 else 0)
  {
    var n := |content| - 1;
    var init := content[..n];
    assert forall i | 0 <= i < n :: init[i] == content[i];
    assert n !in FileBlocks(init);
  }

  /** The upload list is in left-to-right order: the block at `i` that holds a file is the
      one whose file sits at the number of files before it. */
  lemma {:induction false} UploadsInOrder(content: seq<Block>, i: nat)
    requires i < |content| && HasFile(content[i])
    ensures |Uploads(content[..i])| < |Uploads(content)|
    ensures Uploads(content)[|Uploads(content[..i])|] == content[i].value.file
    decreases |content|
  {
    var init := content[..|content| - 1];
    if i < |init| {
      assert init[..i] == content[..i];
      UploadsInOrder(init, i);
    } else {
      assert content[..i] == init;
    }
  }

  /** How the upload list relates to the image blocks the server will see: never more files
      than image blocks, fewer as soon as one image block has no file, and exactly one file
      per image block when every image block has one. */
  lemma {:induction false} UploadsVersusImages(content: seq<Block>)
    ensures |Uploads(content)| <= ImageCount(CleanContent(content))
    ensures (exists i | 0 <= i < |content| :: content[i].kind == Image && !HasFile(content[i])) ==>
              |Uploads(content)| < ImageCount(CleanContent(content))
    ensures (forall i | 0 <= i < |content| :: content[i].kind == Image ==> HasFile(content[i])) ==>
              |Uploads(content)| == ImageCount(CleanContent(content))
    decreases |content|
  {
    if content != [] {
      var init := content[..|content| - 1];
      UploadsVersusImages(init);
      assert CleanContent(content)[..|content| - 1] == CleanContent(init);
      if exists i | 0 <= i < |content| :: content[i].kind == Image && !HasFile(content[i]) {
        var i :| 0 <= i < |content| && content[i].kind == Image && !HasFile(content[i]);
        if i < |init| {
          assert init[i] == content[i];
        }
      }
    }
  }

  /** With a file in every image block, the image blocks before `i` on the server are the
      blocks before `i` that uploaded a file. */
  lemma {:induction false} ImageCountIsUploadCount(content: seq<Block>, i: nat)
    requires i <= |content|
    requires forall k | 0 <= k < |content| :: content[k].kind == Image ==> HasFile(content[k])
    ensures ImageCount(CleanContent(content)[..i]) == |Uploads(content[..i])|
  {
    var p := content[..i];
    assert CleanContent(content)[..i] == CleanContent(p);
    assert forall k | 0 <= k < |p| :: p[k] == content[k];
    UploadsVersusImages(p);
  }

  /** The outcome of `saveBlog`: aborted for a blank title, or the multipart request with the
      untrimmed title, the cleaned content and the upload list. */
  datatype SaveOutcome =
    | TitleMissing
    | Posted(title: string, content: seq<WireBlock>, images: seq<LocalFile>)

  /** `saveBlog` up to the `fetch`: the title check, then the `forEach` that pushes a cleaned
      block for every block and appends each image block's file to the upload list. */
  method SaveBlog(title: string, content: seq<Block>) returns (outcome: SaveOutcome)
    ensures outcome.TitleMissing? <==> Text.Blank(title)
    ensures outcome.Posted? ==> outcome == Posted(title, CleanContent(content), Uploads(content))
  {
    if Text.Trim(title) == "" {
      return TitleMissing;
    }
    var cleanContent: seq<WireBlock> := [];
    var images: seq<LocalFile> := [];
    var i := 0;
    while i < |content|
      invariant 0 <= i <= |content|
      invariant cleanContent == CleanContent(content[..i])
      invariant images == Uploads(content[..i])
    {
      var block := content[i];
      ghost var next := content[..i + 1];
      assert next[..i] == content[..i] && next[i] == block;
      assert CleanContent(next) == CleanContent(content[..i]) + [Clean(block)];
      assert Uploads(next) == Uploads(content[..i]) + (if HasFile(block) then [block.value.file] else []);
      if block.kind == Image && block.value.File? {
        images := images + [block.value.file];
        cleanContent := cleanContent + [WireBlock(Image, None)];
      } else {
        cleanContent := cleanContent + [WireBlock(block.kind, Some(Stringify(block.value)))];
      }
      i := i + 1;
    }
    assert content[..i] == content;
    outcome := Posted(title, cleanContent, images);
  }

  /** A title that passes the page's check passes the server's. */
  lemma PostedTitleIsPresent(title: string)
    requires !Text.Blank(title)
    ensures Present(Some(title))
  {
    assert title != "" by {
      if title == "" { assert Text.Blank(title); }
    }
  }

  /** End to end, when every image block holds a file and multer stores each upload in order
      (`stored[k]` for `Uploads(content)[k]`): the server's pass succeeds and every image
      block receives the path of its own file; text blocks reach the server as their text. */
  lemma SavedImagesReachTheirBlocks(content: seq<Block>, stored: seq<UploadedFile>)
    requires forall k | 0 <= k < |content| :: content[k].kind == Image ==> HasFile(content[k])
    requires |stored| == |Uploads(content)|
    ensures Correlate(CleanContent(content), stored).Success?
    ensures var out := Correlate(CleanContent(content), stored).value;
      && |out| == |content|
      && forall i | 0 <= i < |content| ::
           if content[i].kind == Image then
             var k := |Uploads(content[..i])|;
             k < |stored| && Uploads(content)[k] == content[i].value.file
             && out[i] == WireBlock(Image, Some(UploadPath(stored[k])))
           else out[i] == WireBlock(Text, Some(Stringify(content[i].value)))
  {
    var clean := CleanContent(content);
    UploadsVersusImages(content);
    CorrelateSpec(clean, stored);
    var out := Correlate(clean, stored).value;
    forall i | 0 <= i < |content|
      ensures if content[i].kind == Image then
                var k := |Uploads(content[..i])|;
                k < |stored| && Uploads(content)[k] == content[i].value.file
                && out[i] == WireBlock(Image, Some(UploadPath(stored[k])))
              else out[i] == WireBlock(Text, Some(Stringify(content[i].value)))
    {
      if content[i].kind == Image {
        UploadsInOrder(content, i);
        ImageCountIsUploadCount(content, i);
      }
    }
  }

  /** The desynchronisation the server cannot detect gracefully: one image block without a
      file is still sent as an image block (`{type: "image", value: ""}`) and consumes an
      upload, so with one stored file per upload the whole create fails. */
  lemma ImageWithoutFileAbortsCreate(content: seq<Block>, stored: seq<UploadedFile>, i: nat)
    requires i < |content| && content[i].kind == Image && !HasFile(content[i])
    requires |stored| == |Uploads(content)|
    ensures CleanContent(content)[i].kind == Image
    ensures Correlate(CleanContent(content), stored) == Failure(MissingImageMessage)
  {
    UploadsVersusImages(content);
    CorrelateSpec(CleanContent(content), stored);
  }

  /** With surplus stored files instead, the image block without a file takes the file meant
      for the next image block: `[image(null), image(f)]` stores `f`'s upload on the first. */
  lemma ImageWithoutFileShiftsUploads(f: LocalFile, stored: UploadedFile, spare: UploadedFile)
    ensures var content := [Block(Image, Null), Block(Image, File(f))];
      && Uploads(content) == [f]
      && Correlate(CleanContent(content), [stored, spare])
           == Success([WireBlock(Image, Some(UploadPath(stored))), WireBlock(Image, Some(UploadPath(spare)))])
  {
    var content := [Block(Image, Null), Block(Image, File(f))];
    var files := [stored, spare];
    assert content[..1] == [Block(Image, Null)];
    assert Uploads(content[..1]) == [] by { assert content[..1][..0] == []; }
    var clean := CleanContent(content);
    assert clean == [WireBlock(Image, Some("")), WireBlock(Image, None)];
    var first := clean[..1];
    assert first == [WireBlock(Image, Some(""))];
    assert first[..0] == [];
    assert Correlate(first[..0], files) == Success([]);
    assert ImageCount(first[..0]) == 0;
    assert ImageCount(first) == 1;
    var w1 := WireBlock(Image, Some(UploadPath(stored)));
    assert [] + [w1] == [w1];
    assert Correlate(first, files) == Success([WireBlock(Image, Some(UploadPath(stored)))]);
    assert clean[..|clean| - 1] == first;
    var w2 := WireBlock(Image, Some(UploadPath(spare)));
    assert [w1] + [w2] == [w1, w2];
    assert Correlate(clean, files) == Success([w1, w2]);
  }
}
