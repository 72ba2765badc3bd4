/**
 * The form a customer fills in to become a walker: a document image, a
 * phone number and a description, checked in that order.
 */
module WalkerApplication {
  import opened Optional
  import opened JsString

  /** A chosen file; only its name is used. */
  datatype File = File(name: string)

  /** The first missing field, or success. */
  datatype SubmitOutcome = MissingDocument | MissingPhone | MissingDescription | Submitted

  class WalkerApplicationComponent {
    var documentImage: Option<File>
    var phone: string
    var description: string
    var selectedFileName: string

    constructor()
      ensures documentImage == None && phone == [] && description == [] && selectedFileName == []
    {
      documentImage := None;
      phone := [];
      description := [];
      selectedFileName := [];
    }

    /** `file` is the first file of the input, if any; without one nothing changes. */
    method OnFileSelected(file: Option<File>)
      modifies this
      ensures file.None? ==> unchanged(this)
      ensures file.Some? ==> documentImage == file && selectedFileName == file.value.name
      ensures phone == old(phone) && description == old(description)
    {
      if file.Some? {
        documentImage := file;
        selectedFileName := file.value.name;
      }
    }

    /** Reports the first missing field, in the order document, phone, description. */
    method SubmitApplication() returns (outcome: SubmitOutcome)
      ensures outcome == MissingDocument <==> documentImage.None?
      ensures outcome == MissingPhone <==> documentImage.Some? && AllWhitespace(phone)
      ensures outcome == MissingDescription <==>
        documentImage.Some? && !AllWhitespace(phone) && AllWhitespace(description)
      ensures outcome == Submitted <==>
        documentImage.Some? && Trim(phone) != [] && Trim(description) != []
    {
      if documentImage.None? {
        return MissingDocument;
      }
      if Trim(phone) == [] {
        return MissingPhone;
      }
      if Trim(description) == [] {
        return MissingDescription;
      }
      return Submitted;
    }
  }
}
