/** The account-wide (system) role of a user, the Prisma enum `Role`. */
module Roles {

  datatype Role = Owner | Admin | TeamLead | Developer | Tester | Member
}
