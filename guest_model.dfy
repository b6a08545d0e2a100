/**
 * The guest record as the web pages see it (components/sections/guest-list.tsx and
 * components/improved-guest-list.tsx). An optional text field the pages only ever
 * read through `x || ""` is kept as a string, with "" for a missing value.
 */
module GuestModel {
  datatype Companion = Companion(name: string, relationship: string)

  /** The empty companion slot the pages add when a guest may bring more people. */
  const BlankCompanion := Companion("", "")

  datatype Guest = Guest(
    id: string,
    name: string,
    role: string,
    email: string,
    contact: string,
    message: string,
    allowedGuests: int,
    companions: seq<Companion>,
    tableNumber: string,
    isVip: bool,
    status: string,
    addedBy: string,
    createdAt: string,
    updatedAt: string)
}
