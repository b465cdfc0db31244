/**
 * The exceptions the services throw. Each NestJS HTTP exception is kept
 * apart by its status; a plain `Error` carries only its message.
 */
module Errors {

  datatype Failure =
    | BadRequest(message: string)          // 400, BadRequestException
    | Unauthorized(message: string)        // 401, UnauthorizedException / HttpException(…, UNAUTHORIZED)
    | NotFound(message: string)            // 404, NotFoundException
    | InternalServerError(message: string) // 500, InternalServerErrorException
    | PlainError(message: string)          // a bare `new Error(message)` or a foreign library's error
}
