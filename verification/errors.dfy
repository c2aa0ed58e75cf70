/** The exceptions the modelled code can raise, as values. */
module Errors {

  datatype Error =
      /** `getattr(document, name)` on an attribute the document does not
          declare (Python's `AttributeError`). */
    | NoSuchAttribute(attribute: string)
      /** `getattr(cls, queryset_manager)` on a manager the document class
          does not define (also an `AttributeError`). */
    | NoSuchManager(manager: string)
      /** A keyword passed twice to the normaliser's constructor (Python's
          `TypeError`). */
    | DuplicateKeyword(keyword: string)
      /** The store's unique index rejected a write (mongoengine's
          `NotUniqueError`). */
    | NotUnique(field: string)
}
