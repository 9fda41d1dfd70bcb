/** The new-course form: its state, the field, module and image editors, and the multipart
    body the submit handler builds. */
module CourseForm {

  import opened Wrappers
  import Js
  import Lists

  /** One module of the course. */
  datatype Module = Module(title: string, zoomLink: string, downloadLink: string)

  /** The keys of a module. */
  datatype ModuleField = ModuleTitle | ZoomLink | DownloadLink

  /** A file chosen in the browser: its name and MIME type. */
  datatype PickedFile = PickedFile(name: string, mime: string)

  /** The `image` slot holds either a string (empty when nothing is chosen) or a file. */
  datatype Image = ImageUrl(url: string) | ImageFile(file: PickedFile)

  /** The string-valued keys of the form. */
  datatype Field =
    | Title | Description | Duration | Timing | Language | Price | SalePrice
    | Banner | Seat | WhatsAppLink | TelegramLink

  /** The form state. */
  datatype Form = Form(
    title: string, description: string, image: Image, duration: string, timing: string,
    language: string, price: string, salePrice: string, banner: string, seat: string,
    whatsAppLink: string, telegramLink: string, modules: seq<Module>)

  /** The key under which a field is sent. */
  function Key(f: Field): string
  {
    match f
    case Title => "title"
    case Description => "description"
    case Duration => "duration"
    case Timing => "timing"
    case Language => "language"
    case Price => "price"
    case SalePrice => "salePrice"
    case Banner => "banner"
    case Seat => "seat"
    case WhatsAppLink => "whatsAppLink"
    case TelegramLink => "telegramLink"
  }

  /** Distinct fields are sent under distinct keys. */
  lemma KeyInjective(f: Field, g: Field)
    ensures Key(f) == Key(g) ==> f == g
  {
  }

  /** `form[field]` for a string-valued field. */
  function Get(form: Form, f: Field): string
  {
    match f
    case Title => form.title
    case Description => form.description
    case Duration => form.duration
    case Timing => form.timing
    case Language => form.language
    case Price => form.price
    case SalePrice => form.salePrice
    case Banner => form.banner
    case Seat => form.seat
    case WhatsAppLink => form.whatsAppLink
    case TelegramLink => form.telegramLink
  }

  /** The initial form: every string empty, no image, one blank module. */
  function InitialForm(): (form: Form)
    ensures forall f: Field :: Get(form, f) == ""
    ensures form.image == ImageUrl("")
    ensures form.modules == [Module("", "", "")]
  {
    Form("", "", ImageUrl(""), "", "", "", "", "", "", "", "", "", [Module("", "", "")])
  }

  /** `handleFieldChange`: the one field takes the value; nothing else changes. */
  function SetField(form: Form, f: Field, value: string): (r: Form)
    ensures Get(r, f) == value
    ensures forall g: Field :: g != f ==> Get(r, g) == Get(form, g)
    ensures r.image == form.image && r.modules == form.modules
  {
    match f
    case Title => form.(title := value)
    case Description => form.(description := value)
    case Duration => form.(duration := value)
    case Timing => form.(timing := value)
    case Language => form.(language := value)
    case Price => form.(price := value)
    case SalePrice => form.(salePrice := value)
    case Banner => form.(banner := value)
    case Seat => form.(seat := value)
    case WhatsAppLink => form.(whatsAppLink := value)
    case TelegramLink => form.(telegramLink := value)
  }

  /** Setting a field to the value it has leaves the form as it was. */
  lemma SetFieldToSame(form: Form, f: Field)
    ensures SetField(form, f, Get(form, f)) == form
  {
  }

  /** One key of a module. */
  function ModuleGet(m: Module, field: ModuleField): string
  {
    match field
    case ModuleTitle => m.title
    case ZoomLink => m.zoomLink
    case DownloadLink => m.downloadLink
  }

  /** `handleModuleChange`: the module at `index` takes the value in the one key; the editor
      is only wired to rows that exist. */
  function ChangeModule(form: Form, index: nat, field: ModuleField, value: string): (r: Form)
    requires index < |form.modules|
    ensures |r.modules| == |form.modules|
    ensures ModuleGet(r.modules[index], field) == value
    ensures forall g: ModuleField :: g != field ==> ModuleGet(r.modules[index], g) == ModuleGet(form.modules[index], g)
    ensures forall j | 0 <= j < |form.modules| && j != index :: r.modules[j] == form.modules[j]
    ensures r.(modules := form.modules) == form
  {
    var m := form.modules[index];
    var changed := match field
      case ModuleTitle => m.(title := value)
      case ZoomLink => m.(zoomLink := value)
      case DownloadLink => m.(downloadLink := value);
    form.(modules := form.modules[index := changed])
  }

  /** `addModule`: one blank module at the end. */
  function AddModule(form: Form): (r: Form)
    ensures r.modules == form.modules + [Module("", "", "")]
    ensures r.(modules := form.modules) == form
  {
    form.(modules := form.modules + [Module("", "", "")])
  }

  /** `removeModule`: the module at `index` is dropped; an index past the end drops nothing. */
  function RemoveModule(form: Form, index: int): (r: Form)
    ensures 0 <= index < |form.modules| ==> r.modules == form.modules[..index] + form.modules[index + 1..]
    ensures !(0 <= index < |form.modules|) ==> r.modules == form.modules
    ensures r.(modules := form.modules) == form
  {
    form.(modules := Lists.RemoveAt(form.modules, index))
  }

  /** The delete control is only rendered while more than one module exists. */
  predicate CanRemoveModule(form: Form)
  {
    |form.modules| > 1
  }

  /** Removing through the control never empties the module list, so every reachable form
      has at least one module. */
  lemma RemoveModuleKeepsOne(form: Form, index: int)
    requires CanRemoveModule(form)
    ensures |RemoveModule(form, index).modules| >= 1
    ensures 0 <= index < |form.modules| ==> |RemoveModule(form, index).modules| == |form.modules| - 1
  {
  }

  /** `handleImageDrop` and `handleImageSelect`: the first file, if any, replaces the image
      when its MIME type starts with `image/`; otherwise the form is unchanged. */
  function PickImage(form: Form, first: Option<PickedFile>): (r: Form)
    ensures first.Some? && "image/" <= first.value.mime ==> r == form.(image := ImageFile(first.value))
    ensures first.None? || !("image/" <= first.value.mime) ==> r == form
  {
    if first.Some? && "image/" <= first.value.mime then form.(image := ImageFile(first.value)) else form
  }

  /** `removeImage`: the image slot goes back to the empty string. */
  function RemoveImage(form: Form): (r: Form)
    ensures r.image == ImageUrl("") && r.(image := form.image) == form
  {
    form.(image := ImageUrl(""))
  }

  /** A picked image, once removed, is gone; the rest of the form is as before the pick. */
  lemma PickThenRemove(form: Form, file: PickedFile)
    requires form.image == ImageUrl("")
    ensures RemoveImage(PickImage(form, Some(file))) == form
  {
  }

  /** A part of the multipart body. */
  datatype Part = TextPart(text: string) | FilePart(file: PickedFile) | JsonPart(json: Js.Value)

  /** The `fieldsToAppend` list, in order. */
  const FieldsToAppend: seq<Field> :=
    [Title, Description, Duration, Timing, Language, Price, SalePrice, WhatsAppLink, TelegramLink, Seat]

  /** Where a field other than the banner sits in `FieldsToAppend`. */
  function Rank(f: Field): (k: nat)
    requires f != Banner
    ensures k < |FieldsToAppend| && FieldsToAppend[k] == f
  {
    match f
    case Title => 0
    case Description => 1
    case Duration => 2
    case Timing => 3
    case Language => 4
    case Price => 5
    case SalePrice => 6
    case WhatsAppLink => 7
    case TelegramLink => 8
    case Seat => 9
  }

  /** A module as the JSON object `JSON.stringify` writes for it. */
  function ModuleJson(m: Module): (v: Js.Value)
    ensures v.Obj? && v.fields.Keys == {"title", "zoomLink", "downloadLink"}
    ensures Js.Prop(v, "title") == Js.Str(m.title)
    ensures Js.Prop(v, "zoomLink") == Js.Str(m.zoomLink)
    ensures Js.Prop(v, "downloadLink") == Js.Str(m.downloadLink)
  {
    Js.Obj(map["title" := Js.Str(m.title), "zoomLink" := Js.Str(m.zoomLink), "downloadLink" := Js.Str(m.downloadLink)])
  }

  /** Reads a module back from its JSON object. */
  function ModuleFromJson(v: Js.Value): (r: Option<Module>)
  {
    match (Js.Prop(v, "title"), Js.Prop(v, "zoomLink"), Js.Prop(v, "downloadLink"))
    case (Str(t), Str(z), Str(d)) => Some(Module(t, z, d))
    case _ => None
  }

  /** The modules array as JSON. */
  function ModulesJson(modules: seq<Module>): (v: Js.Value)
    ensures v.Arr? && |v.items| == |modules|
    ensures forall j | 0 <= j < |modules| :: v.items[j] == ModuleJson(modules[j])
  {
    Js.Arr(seq(|modules|, j requires 0 <= j < |modules| => ModuleJson(modules[j])))
  }

  /** The serialised modules read back to the same modules. */
  lemma ModulesJsonRoundTrip(modules: seq<Module>)
    ensures forall j | 0 <= j < |modules| :: ModuleFromJson(ModulesJson(modules).items[j]) == Some(modules[j])
  {
    forall j | 0 <= j < |modules|
      ensures ModuleFromJson(ModulesJson(modules).items[j]) == Some(modules[j])
    {
      var v := ModuleJson(modules[j]);
      assert Js.Prop(v, "title") == Js.Str(modules[j].title);
    }
  }

  /** The parts for a list of fields, in the list's order. */
  function FieldParts(form: Form, fields: seq<Field>): (r: seq<(string, Part)>)
    ensures |r| == |fields|
    ensures forall j | 0 <= j < |fields| :: r[j] == (Key(fields[j]), TextPart(Get(form, fields[j])))
  {
    if fields == [] then [] else FieldParts(form, fields[..|fields| - 1]) + [(Key(fields[|fields| - 1]), TextPart(Get(form, fields[|fields| - 1])))]
  }

  /** The multipart body `handleSubmit` builds: the ten listed fields, the image only when it
      is a file, the banner, and the modules as JSON. */
  function Submission(form: Form): (r: seq<(string, Part)>)
    ensures |r| == if form.image.ImageFile? then 13 else 12
    ensures r[..10] == FieldParts(form, FieldsToAppend)
    ensures form.image.ImageFile? ==> r[10] == ("image", FilePart(form.image.file))
    ensures r[|r| - 2] == ("banner", TextPart(form.banner))
    ensures r[|r| - 1] == ("modules", JsonPart(ModulesJson(form.modules)))
  {
    FieldParts(form, FieldsToAppend)
    + (if form.image.ImageFile? then [("image", FilePart(form.image.file))] else [])
    + [("banner", TextPart(form.banner)), ("modules", JsonPart(ModulesJson(form.modules)))]
  }

  /** Every string field is sent exactly once, under its own key, with its current value;
      an image held as a string is never sent. */
  lemma SubmissionSendsEveryField(form: Form, f: Field)
    ensures exists j | 0 <= j < |Submission(form)| :: Submission(form)[j] == (Key(f), TextPart(Get(form, f)))
    ensures forall j | 0 <= j < |Submission(form)| :: Submission(form)[j].0 == Key(f) ==> Submission(form)[j].1 == TextPart(Get(form, f))
    ensures form.image.ImageUrl? ==> forall j | 0 <= j < |Submission(form)| :: Submission(form)[j].0 != "image"
  {
    var r := Submission(form);
    var parts := FieldParts(form, FieldsToAppend);
    assert r[..10] == parts;
    if f == Banner {
      assert r[|r| - 2] == (Key(f), TextPart(Get(form, f)));
    } else {
      var k := Rank(f);
      assert r[k] == parts[k];
    }
    forall j | 0 <= j < |r| && r[j].0 == Key(f)
      ensures r[j].1 == TextPart(Get(form, f))
    {
      if j < 10 {
        assert r[j] == parts[j];
        KeyInjective(FieldsToAppend[j], f);
      } else if j == |r| - 2 {
        KeyInjective(Banner, f);
      } else {
        KeyNotReserved(f);
      }
    }
    if form.image.ImageUrl? {
      forall j | 0 <= j < |r| ensures r[j].0 != "image" {
        if j < 10 {
          assert r[j] == parts[j];
          KeyNotReserved(FieldsToAppend[j]);
        }
      }
    }
  }

  /** No field is sent under the keys the body uses for the image and the modules. */
  lemma KeyNotReserved(f: Field)
    ensures Key(f) != "image" && Key(f) != "modules"
  {
  }

  /** `handleSubmit`'s body construction: appends the listed fields in a loop, then the
      image when it is a file, the banner and the modules. */
  method BuildSubmission(form: Form) returns (parts: seq<(string, Part)>)
    ensures parts == Submission(form)
  {
    parts := [];
    var fields := FieldsToAppend;
    for i := 0 to |fields|
      invariant parts == FieldParts(form, fields[..i])
    {
      assert fields[..i + 1][..i] == fields[..i];
      parts := parts + [(Key(fields[i]), TextPart(Get(form, fields[i])))];
    }
    assert fields[..|fields|] == fields;
    if form.image.ImageFile? {
      parts := parts + [("image", FilePart(form.image.file))];
    }
    parts := parts + [("banner", TextPart(form.banner))];
    parts := parts + [("modules", JsonPart(ModulesJson(form.modules)))];
  }

  /** Where the page goes after the create request: to the course list when the unwrapped
      result is truthy, nowhere when it is falsy or the request was rejected. */
  function AfterSubmit(result: Option<Js.Value>): (target: Option<string>)
    ensures target.Some? <==> result.Some? && Js.Truthy(result.value)
    ensures target.Some? ==> target.value == "/admin/course"
  {
    if result.Some? && Js.Truthy(result.value) then Some("/admin/course") else None
  }
}
