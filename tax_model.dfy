/** The entities of the tax-report library that the front end consumes
    read-only. Their enumerations are not part of this model, so each enum
    value is represented by its name. */
module TaxModel {
  import opened Wrappers

  type Byte = bv8
  type Bytes = seq<Byte>

  datatype DocumentType = DocumentType(name: string)

  datatype ExpenseType = ExpenseType(name: string)

  /** The name of a state other than COMPLETED. */
  type OtherStateName = s: string | s != "COMPLETED" witness ""

  /** Only COMPLETED is ever tested for; the other states are kept by name,
      which is never "COMPLETED", so each state has one representation. */
  datatype ExpenseState = Completed | Other(name: OtherStateName)

  /** A stored document: `relativePath` is a remote directory plus a file name. */
  datatype Document = Document(id: string, relativePath: string, documentType: DocumentType)

  datatype Person = Person(id: string, name: string, fiscalCode: string)

  /** An expense. `id` and `state` are `None` for an expense built in the form
      and not yet registered (the library assigns them); `year` is `None` when
      no year was chosen. */
  datatype Expense = Expense(
    id: Option<string>,
    year: Option<string>,
    person: Person,
    expenseType: ExpenseType,
    description: string,
    rawDate: string,
    state: Option<ExpenseState>,
    documents: seq<Document>)

  /** A new file to upload with an expense: its type, its display name and the
      local file it is read from. */
  datatype Attachment = Attachment(documentType: DocumentType, name: string, localFile: string)
}
