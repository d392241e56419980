/** The `User` schema: an account record, the schema's validation and
    defaults, and the uniqueness of usernames across the collection. */
module UserModel {
  import opened Base

  /** Optional schema fields are `Option`s; an absent field stays absent. */
  datatype Account = Account(
    username: string,
    password: string,
    fullName: Option<string>,
    collegeId: Option<string>,
    mobile: Option<string>,
    isAdmin: bool,
    isApproved: bool)

  /** Mongoose's `required` on a String rejects both a missing and an empty
      value; a missing form field is represented by "". */
  predicate HasRequired(a: Account) {
    a.username != "" && a.password != ""
  }

  /** The unique index on `username`. */
  ghost predicate UniqueUsernames(accounts: map<Id, Account>) {
    forall j, k :: j in accounts && k in accounts && accounts[j].username == accounts[k].username ==> j == k
  }

  /** Building a `User` document: validate the required fields and fill in
      the defaults of the two flags. */
  function Create(username: string, password: string, fullName: Option<string>,
                  collegeId: Option<string>, mobile: Option<string>,
                  isAdmin: Option<bool>, isApproved: Option<bool>): (r: Result<Account>)
    ensures r.Ok? <==> username != "" && password != ""
    ensures r.Err? ==> r.error == ValidationFailed
    ensures r.Ok? ==> HasRequired(r.value)
    ensures r.Ok? ==> r.value.username == username && r.value.password == password
    ensures r.Ok? ==> r.value.fullName == fullName && r.value.collegeId == collegeId && r.value.mobile == mobile
    ensures r.Ok? ==> (r.value.isAdmin <==> isAdmin == Some(true))
    ensures r.Ok? ==> (r.value.isApproved <==> isApproved == Some(true))
  {
    if username == "" || password == "" then Err(ValidationFailed)
    else
      var admin := if isAdmin.Some? then isAdmin.value else false;
      var approved := if isApproved.Some? then isApproved.value else false;
      Ok(Account(username, password, fullName, collegeId, mobile, admin, approved))
  }
}
