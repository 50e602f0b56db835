/** The protocol-buffer messages of the `Text2ImgService` RPC interface. */
module Messages {

  /** One entry of `request.prompts`. */
  datatype PromptRequest = PromptRequest(prompt: string)

  /** One entry of the returned `ImageResponseList`: a status code in text
      form and either the path of the saved image or an error message. */
  datatype ImageResponse = ImageResponse(successCode: string, imagePath: string)
}
