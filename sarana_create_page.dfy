/**
  app/admin/sarana/create/page.tsx: the form that creates a facility. It
  checks the name, sends the form to the facilities endpoint and returns to
  the list when the facility is stored.
 */
module SaranaCreatePage {
  import opened JsText
  import FacilitiesRoute

  const CreateEndpoint: string := "/api/admin/facilities"
  const ListPage: string := "/admin/sarana"

  /** The toasts the form shows. */
  datatype Toast = NameMissing | Created | CreateFailed {
    function Title(): string {
      if this == Created then "Berhasil" else "Error"
    }
    function Description(): string {
      match this
      case NameMissing => "Nama fasilitas wajib diisi"
      case Created => "Fasilitas berhasil ditambahkan"
      case CreateFailed => "Gagal menambahkan fasilitas"
    }
    predicate Destructive() {
      this != Created
    }
  }

  /** The JSON body of the POST: the name as typed, the description and the
      image URL or null. */
  datatype RequestBody = RequestBody(name: string, description: Option<string>, imageUrl: Option<string>)

  /** The body sent for the current form: the name is not trimmed, and an
      empty description or image URL is sent as null. */
  function BodyOf(name: string, editorContent: string, imageUrl: string): (b: RequestBody)
    ensures b.name == name
    ensures b.description.None? <==> editorContent == ""
    ensures b.description.Some? ==> b.description.value == editorContent
    ensures b.imageUrl.None? <==> imageUrl == ""
    ensures b.imageUrl.Some? ==> b.imageUrl.value == imageUrl
  {
    RequestBody(name, OrNull(Some(editorContent)), OrNull(Some(imageUrl)))
  }

  /** What the route handler receives for a body sent by this form. */
  function Received(b: RequestBody): FacilitiesRoute.FacilityBody {
    FacilitiesRoute.FacilityBody(Some(b.name), b.description, b.imageUrl)
  }

  /** The form's guard and the handler's validation agree: a name the form
      sends is never refused by the handler, which stores it trimmed, with the
      description and image URL as sent. A name the form refuses would be
      refused by the handler too. */
  lemma {:induction false} FormAndHandlerAgree(name: string, editorContent: string, imageUrl: string)
    ensures var r := FacilitiesRoute.NewFacility(Received(BodyOf(name, editorContent, imageUrl)));
      (r.Success? <==> !IsBlank(name)) &&
      (r.Success? ==> r.value == FacilitiesRoute.Facility(Trim(name), BodyOf(name, editorContent, imageUrl).description, BodyOf(name, editorContent, imageUrl).imageUrl))
  {
    var b := BodyOf(name, editorContent, imageUrl);
    assert OrNull(b.description) == b.description;
    assert OrNull(b.imageUrl) == b.imageUrl;
  }

  class CreateFacilityForm {
    var name: string
    var imageUrl: string
    var editorContent: string
    var isLoading: bool
    /** Toasts shown, bodies posted and pages navigated to, in order. */
    var toasts: seq<Toast>
    var sent: seq<RequestBody>
    var navigations: seq<string>

    /** An empty form. */
    constructor ()
      ensures name == "" && imageUrl == "" && editorContent == "" && !isLoading
      ensures toasts == [] && sent == [] && navigations == []
    {
      name := "";
      imageUrl := "";
      editorContent := "";
      isLoading := false;
      toasts := [];
      sent := [];
      navigations := [];
    }

    method SetName(text: string)
      modifies this
      ensures name == text
      ensures imageUrl == old(imageUrl) && editorContent == old(editorContent) && isLoading == old(isLoading)
      ensures toasts == old(toasts) && sent == old(sent) && navigations == old(navigations)
    {
      name := text;
    }

    method SetEditorContent(html: string)
      modifies this
      ensures editorContent == html
      ensures name == old(name) && imageUrl == old(imageUrl) && isLoading == old(isLoading)
      ensures toasts == old(toasts) && sent == old(sent) && navigations == old(navigations)
    {
      editorContent := html;
    }

    /** The uploader's `onChange`: the uploaded image's URL. */
    method ImageUploaded(url: string)
      modifies this
      ensures imageUrl == url
      ensures name == old(name) && editorContent == old(editorContent) && isLoading == old(isLoading)
      ensures toasts == old(toasts) && sent == old(sent) && navigations == old(navigations)
    {
      imageUrl := url;
    }

    /** The uploader's `onRemove`: the URL becomes "", so it is sent as null. */
    method RemoveImage()
      modifies this
      ensures imageUrl == "" && BodyOf(name, editorContent, imageUrl).imageUrl.None?
      ensures name == old(name) && editorContent == old(editorContent) && isLoading == old(isLoading)
      ensures toasts == old(toasts) && sent == old(sent) && navigations == old(navigations)
    {
      imageUrl := "";
    }

    /** `handleSubmit`, with the outcome of the POST (true: an ok response;
        false: a refused response or a network error). A name that is blank
        once trimmed shows an error and sends nothing, leaving `isLoading` as
        it was. Otherwise the form is posted; an ok response shows a success
        toast and goes back to the list, any other outcome shows an error
        toast; `isLoading` is false afterwards. */
    method HandleSubmit(responseOk: bool)
      modifies this
      ensures name == old(name) && imageUrl == old(imageUrl) && editorContent == old(editorContent)
      ensures IsBlank(name) ==>
        toasts == old(toasts) + [NameMissing] && sent == old(sent) &&
        navigations == old(navigations) && isLoading == old(isLoading)
      ensures !IsBlank(name) ==> !isLoading
      ensures !IsBlank(name) ==> sent == old(sent) + [BodyOf(name, editorContent, imageUrl)]
      ensures !IsBlank(name) ==> toasts == old(toasts) + [if responseOk then Created else CreateFailed]
      ensures !IsBlank(name) ==> navigations == old(navigations) + (if responseOk then [ListPage] else [])
    {
      if IsBlank(name) {
        toasts := toasts + [NameMissing];
        return;
      }
      var body := BodyOf(name, editorContent, imageUrl);
      isLoading := true;
      sent := sent + [body];
      if responseOk {
        toasts := toasts + [Created];
        navigations := navigations + [ListPage];
      } else {
        toasts := toasts + [CreateFailed];
      }
      isLoading := false;
    }
  }
}
